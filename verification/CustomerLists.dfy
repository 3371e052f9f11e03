/** The customer registry: records and the lists by type and status that mirror them. */
module CustomerLists {
  import opened Common
  import RList

  /** mark is the fingerprint of the customer's certificate. */
  datatype Customer = Customer(no: string, kind: string, status: string, mark: string, regBy: string)

  datatype State = State(records: map<string, Customer>, index: map<string, string>, lists: map<string, seq<string>>)

  function Init(): State { State(map[], map[], map[]) }

  // ---------------------------------------------------------------- named lists

  type Lists = map<string, seq<string>>

  function Get(lists: Lists, name: string): seq<string> { if name in lists then lists[name] else [] }

  ghost predicate In(lists: Lists, name: string, id: string) { id in Get(lists, name) }

  function AddTo(lists: Lists, name: string, id: string): (r: Lists)
    ensures forall m, x :: In(r, m, x) <==> In(lists, m, x) || (m == name && x == id)
  {
    lists[name := RList.Add(Get(lists, name), id)]
  }

  function RemoveFrom(lists: Lists, name: string, id: string): (r: Lists)
    ensures forall m, x :: In(r, m, x) <==> In(lists, m, x) && !(m == name && x == id)
  {
    lists[name := RList.Remove(Get(lists, name), id)]
  }

  function TypeList(kind: string): string { "customer_" + kind }

  /** With the empty type this is the list of a status, whatever the type. */
  function TypeStatusList(kind: string, status: string): string { "customer_" + kind + "_" + status }

  function StatusList(status: string): string { "customer__" + status }

  ghost predicate Plain(s: string) { '_' !in s }

  lemma StatusListIs(status: string)
    ensures StatusList(status) == TypeStatusList("", status)
  {
    assert "customer__" == "customer_" + "" + "_";
  }

  /** Names built from plain types and statuses are different when their parts are. */
  lemma NamesDiffer(kind: string, status: string, kind': string, status': string)
    requires Plain(kind) && Plain(kind')
    ensures TypeList(kind) == TypeList(kind') <==> kind == kind'
    ensures TypeStatusList(kind, status) == TypeStatusList(kind', status') <==> kind == kind' && status == status'
    ensures TypeList(kind) != TypeStatusList(kind', status')
    ensures "customer" != TypeList(kind) && "customer" != TypeStatusList(kind, status)
  {
    var a, b := TypeStatusList(kind, status), TypeStatusList(kind', status');
    var p := |"customer_"|;
    assert TypeList(kind)[p..] == kind && TypeList(kind')[p..] == kind';
    assert a[p..] == kind + "_" + status && b[p..] == kind' + "_" + status';
    Parts(kind, status, kind', status');
    assert (kind' + "_" + status')[|kind'|] == '_';
  }

  /** With underscores they need not be: every list of a type and a status is also that of a type. */
  lemma UnderscoresCollide(kind: string, status: string)
    ensures TypeList(kind + "_" + status) == TypeStatusList(kind, status)
  {
    assert TypeList(kind + "_" + status) == "customer_" + kind + "_" + status;
  }

  lemma Parts(kind: string, status: string, kind': string, status': string)
    requires Plain(kind) && Plain(kind')
    ensures kind + "_" + status == kind' + "_" + status' <==> kind == kind' && status == status'
  {
    var a, b := kind + "_" + status, kind' + "_" + status';
    assert a[..|kind|] == kind && a[|kind|] == '_' && a[|kind| + 1..] == status;
    assert b[..|kind'|] == kind' && b[|kind'|] == '_' && b[|kind'| + 1..] == status';
    assert forall i :: 0 <= i < |kind| ==> a[i] == kind[i];
    assert forall i :: 0 <= i < |kind'| ==> b[i] == kind'[i];
  }

  // ---------------------------------------------------------------- transactions

  /** strconv.Atoi, without its range check. */
  function Atoi(s: string): Option<int> {
    if s == "" then None
    else if s[0] == '-' then (match Digits(s[1..]) case None => None case Some(n) => Some(-n))
    else if s[0] == '+' then Digits(s[1..])
    else Digits(s)
  }

  function Digits(s: string): Option<int> {
    if s == "" then None
    else if !('0' <= s[|s| - 1] <= '9') then None
    else
      var d := s[|s| - 1] as int - '0' as int;
      if |s| == 1 then Some(d)
      else match Digits(s[..|s| - 1]) case None => None case Some(n) => Some(10 * n + d)
  }

  /** The empty string in a modification means no change. caller is the fingerprint of the
      submitter's certificate; other tells that a name or an authentication status is given, and
      fromApproval that the transaction was made by rbcapproval. */
  datatype Event =
    | Register(id: string, no: string, kind: string, mark: string, caller: string)
    | Modify(id: string, kind: string, status: string, mark: string, other: bool, caller: string, fromApproval: bool)

  function CallerOf(s: State, mark: string): Option<Customer> {
    if mark in s.index && s.index[mark] != "" && s.index[mark] in s.records
    then Some(s.records[s.index[mark]]) else None
  }

  /** Once there are customers, those of types 1 to 3 may register others, and only type 1 may
      register types below 4. */
  predicate MayRegister(s: State, e: Event)
    requires e.Register?
  {
    |Get(s.lists, "customer")| > 0 ==>
      && CallerOf(s, e.caller).Some?
      && var kind, mine := Atoi(e.kind), Atoi(CallerOf(s, e.caller).value.kind);
      && kind.Some? && mine.Some? && 1 <= mine.value <= 3
      && (kind.value < 4 ==> mine.value == 1)
  }

  predicate MayModify(s: State, e: Event)
    requires e.Modify?
  {
    && CallerOf(s, e.caller).Some?
    && (e.other || e.kind != "" || e.status != "" || e.mark != "" ==>
        CallerOf(s, e.caller).value.kind == "1" && e.fromApproval)
  }

  predicate Accepted(s: State, e: Event) {
    match e
    case Register(id, no, _, _, _) => MayRegister(s, e) && id != "" && id !in s.records && no !in s.index
    case Modify(id, _, _, _, _, _, _) => id in s.records && MayModify(s, e)
  }

  function Registered(s: State, e: Event): Customer
    requires e.Register? && MayRegister(s, e)
  {
    Customer(e.no, e.kind, "1", e.mark,
             if |Get(s.lists, "customer")| > 0 then CallerOf(s, e.caller).value.no else "system")
  }

  function Modified(c: Customer, e: Event): Customer
    requires e.Modify?
  {
    c.(kind := if e.kind != "" then e.kind else c.kind,
       status := if e.status != "" then e.status else c.status,
       mark := if e.mark != "" then e.mark else c.mark)
  }

  function ListsAfterRegister(lists: Lists, id: string, c: Customer): Lists {
    AddTo(AddTo(AddTo(AddTo(lists, "customer", id), TypeList(c.kind), id), TypeStatusList(c.kind, c.status), id),
          StatusList(c.status), id)
  }

  function ListsAfterModify(lists: Lists, id: string, c: Customer, c': Customer): Lists {
    if c.kind != c'.kind then
      AddTo(RemoveFrom(AddTo(RemoveFrom(lists, TypeList(c.kind), id), TypeList(c'.kind), id),
                       TypeStatusList(c.kind, c.status), id), TypeStatusList(c'.kind, c'.status), id)
    else if c.status != c'.status then
      AddTo(RemoveFrom(AddTo(RemoveFrom(lists, TypeStatusList(c.kind, c.status), id), TypeStatusList(c'.kind, c'.status), id),
                       StatusList(c.status), id), StatusList(c'.status), id)
    else lists
  }

  function Next(s: State, e: Event): State {
    if !Accepted(s, e) then s
    else
      match e
      case Register(id, no, _, mark, _) =>
        var c := Registered(s, e);
        State(s.records[id := c], s.index[id := id][no := id][mark := id], ListsAfterRegister(s.lists, id, c))
      case Modify(id, _, _, mark, _, _, _) =>
        var c := s.records[id];
        var c' := Modified(c, e);
        State(s.records[id := c'], if mark != "" then (s.index - {c.mark})[mark := id] else s.index,
              ListsAfterModify(s.lists, id, c, c'))
  }

  function Run(events: seq<Event>): State {
    if events == [] then Init() else Next(Run(events[..|events| - 1]), events[|events| - 1])
  }

  // ---------------------------------------------------------------- the mirrors

  ghost predicate PlainEvent(e: Event) { Plain(e.kind) && (e.Modify? ==> Plain(e.status)) }

  ghost predicate PlainEvents(events: seq<Event>) { forall i :: 0 <= i < |events| ==> PlainEvent(events[i]) }

  ghost predicate PlainRecords(s: State) {
    forall id :: id in s.records ==> Plain(s.records[id].kind) && Plain(s.records[id].status)
  }

  ghost predicate Is(s: State, id: string, kind: string) { id in s.records && s.records[id].kind == kind }

  ghost predicate Has(s: State, id: string, status: string) { id in s.records && s.records[id].status == status }

  /** The lists of a type, and of a type and a status, are right for a customer. */
  ghost predicate TypesRight(s: State, id: string, kind: string, status: string) {
    && (In(s.lists, TypeList(kind), id) <==> Is(s, id, kind))
    && (kind != "" ==> (In(s.lists, TypeStatusList(kind, status), id) <==> Is(s, id, kind) && Has(s, id, status)))
  }

  ghost predicate TypesMirror(s: State) {
    forall id, kind, status :: Plain(kind) && Plain(status) ==> TypesRight(s, id, kind, status)
  }

  /** The status lists are right for one customer. */
  ghost predicate StatusMirror(s: State, id: string) {
    forall status :: Plain(status) ==> (In(s.lists, StatusList(status), id) <==> Has(s, id, status))
  }

  lemma RegisterKeepsTypes(s: State, e: Event, id: string, kind: string, status: string)
    requires e.Register? && Accepted(s, e) && Plain(e.kind) && Plain(kind) && TypesRight(s, id, kind, status)
    ensures TypesRight(Next(s, e), id, kind, status)
  {
    NamesDiffer(e.kind, "1", kind, status);
    NamesDiffer("", "1", kind, status);
    NamesDiffer(kind, status, e.kind, "1");
    NamesDiffer(kind, status, "", "1");
    StatusListIs("1");
  }

  /** A change of type moves the customer between the lists of the types and those of both. */
  lemma TypeChangeKeepsTypes(s: State, e: Event, id: string, kind: string, status: string)
    requires e.Modify? && Accepted(s, e) && PlainEvent(e) && Plain(kind) && Plain(s.records[e.id].kind)
    requires TypesRight(s, id, kind, status) && Modified(s.records[e.id], e).kind != s.records[e.id].kind
    ensures TypesRight(Next(s, e), id, kind, status)
  {
    var c := s.records[e.id];
    var c' := Modified(c, e);
    NamesDiffer(c.kind, c.status, kind, status);
    NamesDiffer(c'.kind, c'.status, kind, status);
    NamesDiffer(kind, status, c.kind, c.status);
    NamesDiffer(kind, status, c'.kind, c'.status);
  }

  lemma StatusChangeKeepsTypes(s: State, e: Event, id: string, kind: string, status: string)
    requires e.Modify? && Accepted(s, e) && PlainEvent(e) && Plain(kind) && Plain(s.records[e.id].kind)
    requires TypesRight(s, id, kind, status) && Modified(s.records[e.id], e).kind == s.records[e.id].kind
    ensures TypesRight(Next(s, e), id, kind, status)
  {
    var c := s.records[e.id];
    var c' := Modified(c, e);
    NamesDiffer(c.kind, c.status, kind, status);
    NamesDiffer(c.kind, c'.status, kind, status);
    NamesDiffer(kind, status, c.kind, c.status);
    NamesDiffer(kind, status, c.kind, c'.status);
    NamesDiffer(kind, status, "", c.status);
    NamesDiffer(kind, status, "", c'.status);
    StatusListIs(c.status);
    StatusListIs(c'.status);
  }

  lemma NextKeepsTypes(s: State, e: Event, id: string, kind: string, status: string)
    requires PlainEvent(e) && PlainRecords(s) && Plain(kind) && TypesRight(s, id, kind, status)
    ensures TypesRight(Next(s, e), id, kind, status)
  {
    if Accepted(s, e) {
      if e.Register? {
        RegisterKeepsTypes(s, e, id, kind, status);
      } else if Modified(s.records[e.id], e).kind != s.records[e.id].kind {
        TypeChangeKeepsTypes(s, e, id, kind, status);
      } else {
        StatusChangeKeepsTypes(s, e, id, kind, status);
      }
    }
  }

  lemma {:induction false} RunKeepsPlain(events: seq<Event>)
    requires PlainEvents(events)
    ensures PlainRecords(Run(events)) && "" !in Run(events).records
  {
    if events != [] {
      RunKeepsPlain(events[..|events| - 1]);
    }
  }

  lemma {:induction false} RunKeepsTypes(events: seq<Event>)
    requires PlainEvents(events)
    ensures TypesMirror(Run(events))
  {
    if events != [] {
      var e := events[|events| - 1];
      var s := Run(events[..|events| - 1]);
      RunKeepsTypes(events[..|events| - 1]);
      RunKeepsPlain(events[..|events| - 1]);
      forall id, kind, status | Plain(kind) && Plain(status)
        ensures TypesRight(Next(s, e), id, kind, status)
      {
        assert TypesRight(s, id, kind, status);
        NextKeepsTypes(s, e, id, kind, status);
      }
    }
  }

  /** Over every run, a customer is in the list of a type exactly when that is his type, and in the
      list of a type and a status exactly when both are his. */
  lemma {:induction false} TypeListsMirror(events: seq<Event>, id: string, kind: string, status: string)
    requires PlainEvents(events) && Plain(kind) && Plain(status)
    ensures TypesRight(Run(events), id, kind, status)
  {
    RunKeepsTypes(events);
  }

  // ---------------------------------------------------------------- the status lists

  /** A modification that changes the type and also the status, or gives a customer his first type. */
  predicate Disturbs(s: State, e: Event) {
    e.Modify? && e.id in s.records &&
    var c := s.records[e.id];
    var c' := Modified(c, e);
    c.kind != c'.kind && (c.status != c'.status || c.kind == "")
  }

  lemma RegisterKeepsStatus(s: State, e: Event, id: string)
    requires e.Register? && Accepted(s, e) && Plain(e.kind) && StatusMirror(s, id)
    ensures StatusMirror(Next(s, e), id)
  {
    forall status | Plain(status)
      ensures In(Next(s, e).lists, StatusList(status), id) <==> Has(Next(s, e), id, status)
    {
      NamesDiffer(e.kind, "1", "", status);
      NamesDiffer("", status, e.kind, "1");
      NamesDiffer("", "1", "", status);
      StatusListIs("1");
      StatusListIs(status);
    }
  }

  /** Whether a customer whose record changes from c to c' stays or gets in the list of a status. */
  predicate InStatusList(c: Customer, c': Customer, was: bool, status: string) {
    if c.kind != c'.kind then was && !(c.kind == "" && status == c.status)
    else if c.status != c'.status then status == c'.status || (was && status != c.status)
    else was
  }

  lemma ModifiedLists(s: State, e: Event, status: string)
    requires e.Modify? && Accepted(s, e) && PlainEvent(e) && PlainRecords(s) && Plain(status)
    ensures var c := s.records[e.id]; var c' := Modified(c, e); var s' := Next(s, e);
      && (In(s'.lists, StatusList(status), e.id) <==> InStatusList(c, c', In(s.lists, StatusList(status), e.id), status))
      && forall id :: id != e.id ==> (In(s'.lists, StatusList(status), id) <==> In(s.lists, StatusList(status), id))
  {
    var c := s.records[e.id];
    var c' := Modified(c, e);
    NamesDiffer(c.kind, c.status, "", status);
    NamesDiffer(c'.kind, c'.status, "", status);
    NamesDiffer("", c.status, "", status);
    NamesDiffer("", c'.status, "", status);
    StatusListIs(status);
    StatusListIs(c.status);
    StatusListIs(c'.status);
  }

  /** A modification leaves the status lists right exactly when it is not a disturbing one. */
  lemma ModifyKeepsStatusIff(s: State, e: Event)
    requires e.Modify? && Accepted(s, e) && PlainEvent(e) && PlainRecords(s) && StatusMirror(s, e.id)
    ensures StatusMirror(Next(s, e), e.id) <==> !Disturbs(s, e)
  {
    var c := s.records[e.id];
    var c' := Modified(c, e);
    var s' := Next(s, e);
    forall status | Plain(status)
      ensures In(s'.lists, StatusList(status), e.id) <==> InStatusList(c, c', status == c.status, status)
    {
      ModifiedLists(s, e, status);
      assert In(s.lists, StatusList(status), e.id) <==> Has(s, e.id, status);
    }
    assert Has(s', e.id, c'.status);
    assert Disturbs(s, e) ==> !In(s'.lists, StatusList(c'.status), e.id);
  }

  /** What a disturbing one leaves: the customer is not in the list of his status, and when he had
      a type he is still in the list of the status he had. */
  lemma StaleEntry(s: State, e: Event)
    requires e.Modify? && Accepted(s, e) && PlainEvent(e) && PlainRecords(s) && StatusMirror(s, e.id) && Disturbs(s, e)
    ensures var s' := Next(s, e);
      && !In(s'.lists, StatusList(s'.records[e.id].status), e.id)
      && (In(s'.lists, StatusList(s.records[e.id].status), e.id) <==> s.records[e.id].kind != "")
  {
    ModifiedLists(s, e, Next(s, e).records[e.id].status);
    ModifiedLists(s, e, s.records[e.id].status);
    assert In(s.lists, StatusList(s.records[e.id].status), e.id) <==> Has(s, e.id, s.records[e.id].status);
    assert In(s.lists, StatusList(Next(s, e).records[e.id].status), e.id) <==> Has(s, e.id, Next(s, e).records[e.id].status);
  }

  lemma NextKeepsStatus(s: State, e: Event, id: string)
    requires PlainEvent(e) && PlainRecords(s) && !(e.id == id && Disturbs(s, e)) && StatusMirror(s, id)
    ensures StatusMirror(Next(s, e), id)
  {
    if Accepted(s, e) {
      if e.Register? {
        RegisterKeepsStatus(s, e, id);
      } else if e.id == id {
        ModifyKeepsStatusIff(s, e);
      } else {
        forall status | Plain(status)
          ensures In(Next(s, e).lists, StatusList(status), id) <==> Has(Next(s, e), id, status)
        {
          ModifiedLists(s, e, status);
          assert In(s.lists, StatusList(status), id) <==> Has(s, id, status);
        }
      }
    }
  }

  /** No event of the run disturbs the customer's status lists. */
  ghost predicate Undisturbed(events: seq<Event>, id: string) {
    forall i :: 0 <= i < |events| && events[i].id == id ==> !Disturbs(Run(events[..i]), events[i])
  }

  /** Over every run without a disturbing modification of a customer, he is in the list of a status
      exactly when that is his status. */
  lemma {:induction false} StatusListsMirror(events: seq<Event>, id: string, status: string)
    requires PlainEvents(events) && Undisturbed(events, id) && Plain(status)
    ensures In(Run(events).lists, StatusList(status), id) <==> Has(Run(events), id, status)
  {
    StatusMirrorKept(events, id);
  }

  lemma {:induction false} StatusMirrorKept(events: seq<Event>, id: string)
    requires PlainEvents(events) && Undisturbed(events, id)
    ensures StatusMirror(Run(events), id)
  {
    if events != [] {
      var front := events[..|events| - 1];
      assert forall i :: 0 <= i < |front| ==> front[..i] == events[..i] && front[i] == events[i];
      StatusMirrorKept(front, id);
      RunKeepsPlain(front);
      NextKeepsStatus(Run(front), events[|events| - 1], id);
    }
  }

  // ---------------------------------------------------------------- counting

  ghost predicate UniqueLists(lists: Lists) { forall name :: RList.Unique(Get(lists, name)) }

  lemma AddKeepsUnique(lists: Lists, name: string, id: string)
    requires UniqueLists(lists)
    ensures UniqueLists(AddTo(lists, name, id))
  {
    RList.AddUnique(Get(lists, name), id);
    assert forall m :: m != name ==> Get(AddTo(lists, name, id), m) == Get(lists, m);
  }

  lemma RemoveKeepsUnique(lists: Lists, name: string, id: string)
    requires UniqueLists(lists)
    ensures UniqueLists(RemoveFrom(lists, name, id))
  {
    RList.RemoveUnique(Get(lists, name), id);
    assert forall m :: m != name ==> Get(RemoveFrom(lists, name, id), m) == Get(lists, m);
  }

  /** One list left, another entered. */
  lemma MoveKeepsUnique(lists: Lists, from: string, to: string, id: string)
    requires UniqueLists(lists)
    ensures UniqueLists(AddTo(RemoveFrom(lists, from, id), to, id))
  {
    RemoveKeepsUnique(lists, from, id);
    AddKeepsUnique(RemoveFrom(lists, from, id), to, id);
  }

  lemma RegisterKeepsUnique(lists: Lists, id: string, c: Customer)
    requires UniqueLists(lists)
    ensures UniqueLists(ListsAfterRegister(lists, id, c))
  {
    var a := AddTo(lists, "customer", id);
    var b := AddTo(a, TypeList(c.kind), id);
    var d := AddTo(b, TypeStatusList(c.kind, c.status), id);
    AddKeepsUnique(lists, "customer", id);
    AddKeepsUnique(a, TypeList(c.kind), id);
    AddKeepsUnique(b, TypeStatusList(c.kind, c.status), id);
    AddKeepsUnique(d, StatusList(c.status), id);
  }

  lemma ModifyKeepsUnique(lists: Lists, id: string, c: Customer, c': Customer)
    requires UniqueLists(lists)
    ensures UniqueLists(ListsAfterModify(lists, id, c, c'))
  {
    var old1, new1 := TypeStatusList(c.kind, c.status), TypeStatusList(c'.kind, c'.status);
    if c.kind != c'.kind {
      MoveKeepsUnique(lists, TypeList(c.kind), TypeList(c'.kind), id);
      MoveKeepsUnique(AddTo(RemoveFrom(lists, TypeList(c.kind), id), TypeList(c'.kind), id), old1, new1, id);
    } else if c.status != c'.status {
      MoveKeepsUnique(lists, old1, new1, id);
      MoveKeepsUnique(AddTo(RemoveFrom(lists, old1, id), new1, id), StatusList(c.status), StatusList(c'.status), id);
    }
  }

  lemma {:induction false} RunKeepsUnique(events: seq<Event>)
    ensures UniqueLists(Run(events).lists)
  {
    if events != [] {
      var e := events[|events| - 1];
      var s := Run(events[..|events| - 1]);
      RunKeepsUnique(events[..|events| - 1]);
      if Accepted(s, e) {
        if e.Register? {
          RegisterKeepsUnique(s.lists, e.id, Registered(s, e));
        } else {
          ModifyKeepsUnique(s.lists, e.id, s.records[e.id], Modified(s.records[e.id], e));
        }
      }
    }
  }

  lemma {:induction false} UniqueCount(s: seq<string>, members: set<string>)
    requires RList.Unique(s) && forall x :: x in s <==> x in members
    ensures |s| == |members|
  {
    if s == [] {
      assert members == {};
    } else {
      var front, last := s[..|s| - 1], s[|s| - 1];
      assert s == front + [last];
      assert last !in front;
      UniqueCount(front, members - {last});
    }
  }

  /** The number of super users that joint approval works with, the size of the list of type "1" and
      status "1", is the number of customers of that type and status. */
  lemma {:induction false} SuperUsersCounted(events: seq<Event>)
    requires PlainEvents(events)
    ensures var s := Run(events);
      |Get(s.lists, TypeStatusList("1", "1"))| ==
      |set id | id in s.records && s.records[id].kind == "1" && s.records[id].status == "1"|
  {
    RunKeepsUnique(events);
    RunKeepsTypes(events);
    var s := Run(events);
    var list := Get(s.lists, TypeStatusList("1", "1"));
    forall id
      ensures id in list <==> Is(s, id, "1") && Has(s, id, "1")
    {
      assert TypesRight(s, id, "1", "1");
    }
    UniqueCount(list, set id | id in s.records && s.records[id].kind == "1" && s.records[id].status == "1");
  }

  // ---------------------------------------------------------------- the chaincode

  class Chaincode {
    var records: map<string, Customer>
    var index: map<string, string>
    var lists: Lists

    ghost function Contents(): State
      reads this
    {
      State(records, index, lists)
    }

    constructor ()
      ensures Contents() == Init()
    {
      records, index, lists := map[], map[], map[];
    }

    method Add(name: string, id: string)
      modifies this`lists
      ensures lists == AddTo(old(lists), name, id)
    {
      lists := lists[name := RList.Add(if name in lists then lists[name] else [], id)];
    }

    method Remove(name: string, id: string)
      modifies this`lists
      ensures lists == RemoveFrom(old(lists), name, id)
    {
      lists := lists[name := RList.Remove(if name in lists then lists[name] else [], id)];
    }

    method Register(id: string, no: string, kind: string, mark: string, caller: string) returns (ok: bool)
      modifies this
      ensures var e := Event.Register(id, no, kind, mark, caller);
        ok == Accepted(old(Contents()), e) && Contents() == Next(old(Contents()), e)
    {
      var s := State(records, index, lists);
      var regBy := "system";
      if "customer" in lists && |lists["customer"]| > 0 {
        var me := CallerOf(s, caller);
        if me.None? {
          return false;
        }
        var type_, mine := Atoi(kind), Atoi(me.value.kind);
        if type_.None? || mine.None? || mine.value > 3 || mine.value < 1 || (type_.value < 4 && mine.value != 1) {
          return false;
        }
        regBy := me.value.no;
      }
      if id == "" || id in records || no in index {
        return false;
      }
      var c := Customer(no, kind, "1", mark, regBy);
      records := records[id := c];
      index := index[id := id][no := id][mark := id];
      Add("customer", id);
      Add(TypeList(kind), id);
      Add(TypeStatusList(kind, "1"), id);
      Add(StatusList("1"), id);
      return true;
    }

    method ModifyInfo(id: string, kind: string, status: string, mark: string, other: bool, caller: string, fromApproval: bool)
      returns (ok: bool)
      modifies this
      ensures var e := Modify(id, kind, status, mark, other, caller, fromApproval);
        ok == Accepted(old(Contents()), e) && Contents() == Next(old(Contents()), e)
    {
      if id !in records {
        return false;
      }
      var me := CallerOf(State(records, index, lists), caller);
      if me.None? {
        return false;
      }
      if other || kind != "" || status != "" || mark != "" {
        if me.value.kind != "1" || !fromApproval {
          return false;
        }
      }
      var c := records[id];
      var oldKind, oldStatus := c.kind, c.status;
      if kind != "" {
        c := c.(kind := kind);
      }
      if status != "" {
        c := c.(status := status);
      }
      if mark != "" {
        index := (index - {c.mark})[mark := id];
        c := c.(mark := mark);
      }
      if oldKind != c.kind {
        Remove(TypeList(oldKind), id);
        Add(TypeList(c.kind), id);
        Remove(TypeStatusList(oldKind, oldStatus), id);
        Add(TypeStatusList(c.kind, c.status), id);
      } else if oldStatus != c.status {
        Remove(TypeStatusList(oldKind, oldStatus), id);
        Add(TypeStatusList(c.kind, c.status), id);
        Remove(StatusList(oldStatus), id);
        Add(StatusList(c.status), id);
      }
      records := records[id := c];
      return true;
    }

    /** queryAll: 20 on a page, in the order of the list the type and the status select. */
    method QueryAll(kind: string, status: string, cpno: int) returns (page: nat, total: nat, rows: seq<Customer>)
      ensures var list := Get(lists, Selected(kind, status));
        && total == |list| && page == RList.Clamp(|list|, 20, cpno)
        && rows == RList.Query(records, list, 20, cpno)
    {
      var list := Get(lists, Selected(kind, status));
      total := |list|;
      page := RList.Clamp(total, 20, cpno);
      var first, end := page * 20, RList.PageEnd(total, 20, page);
      RList.PageBounds(total, 20, page);
      rows := [];
      for i := first to end
        invariant rows == RList.Rows(records, list[first..i])
      {
        var id := list[i];
        RList.RowsNext(records, list, first, i);
        if |id| > 0 && id in records {
          rows := rows + [records[id]];
        }
      }
    }
  }

  function Selected(kind: string, status: string): string {
    if kind != "" then (if status != "" then TypeStatusList(kind, status) else TypeList(kind))
    else if status != "" then StatusList(status)
    else "customer"
  }
}
