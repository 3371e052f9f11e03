/** Customer records: who may register and change them, what they hold, and how a certificate finds its
    customer. */
module CustomerRights {
  import opened Common
  import opened CustomerLists
  import RList

  // ---------------------------------------------------------------- numbers

  function Itoa(n: nat): string {
    if n < 10 then [(n + '0' as int) as char] else Itoa(n / 10) + [(n % 10 + '0' as int) as char]
  }

  lemma {:induction false} DigitsOfItoa(n: nat)
    ensures Itoa(n) != "" && '0' <= Itoa(n)[0] <= '9' && Digits(Itoa(n)) == Some(n)
  {
    if n >= 10 {
      DigitsOfItoa(n / 10);
      var front := Itoa(n / 10);
      assert Itoa(n)[..|front|] == front;
    }
  }

  /** Reading a number undoes writing it, with or without a sign. */
  lemma AtoiOfItoa(n: nat)
    ensures Atoi(Itoa(n)) == Some(n) && Atoi("+" + Itoa(n)) == Some(n) && Atoi("-" + Itoa(n)) == Some(0 - n)
  {
    DigitsOfItoa(n);
    assert ("+" + Itoa(n))[1..] == Itoa(n) && ("-" + Itoa(n))[1..] == Itoa(n);
  }

  predicate AllDigits(s: string) { s != "" && forall i :: 0 <= i < |s| ==> '0' <= s[i] <= '9' }

  lemma {:induction false} DigitsAre(s: string)
    ensures Digits(s).Some? <==> AllDigits(s)
    ensures Digits(s).Some? ==> Digits(s).value >= 0
  {
    if |s| > 1 {
      DigitsAre(s[..|s| - 1]);
    }
  }

  /** And only digits with a sign or without are a number. */
  lemma AtoiReads(s: string)
    ensures Atoi(s).Some? <==> AllDigits(s) || (s != "" && (s[0] == '-' || s[0] == '+') && AllDigits(s[1..]))
  {
    DigitsAre(s);
    if s != "" {
      DigitsAre(s[1..]);
    }
  }

  // ---------------------------------------------------------------- who may do what

  /** The customer may register one of this type: he is of type 1, 2 or 3, and of type 1 for these. */
  predicate Entitled(me: Customer, kind: string) {
    && Atoi(kind).Some? && Atoi(me.kind) in {Some(1), Some(2), Some(3)}
    && (Atoi(me.kind) == Some(1) || Atoi(kind).value >= 4)
  }

  /** The list of all customers, in the order of their registration. */
  function RegisteredIds(events: seq<Event>): seq<string> {
    if events == [] then []
    else
      var front, e := events[..|events| - 1], events[|events| - 1];
      RegisteredIds(front) + if e.id in Run(events).records && e.id !in Run(front).records then [e.id] else []
  }

  lemma ListOfAll(s: State, e: Event)
    ensures Accepted(s, e) && e.Register? ==>
      Get(Next(s, e).lists, "customer") == RList.Add(Get(s.lists, "customer"), e.id)
    ensures !(Accepted(s, e) && e.Register?) ==> Get(Next(s, e).lists, "customer") == Get(s.lists, "customer")
  {
    forall kind, status
      ensures TypeList(kind) != "customer" && TypeStatusList(kind, status) != "customer" && StatusList(status) != "customer"
    {
      assert |TypeList(kind)| > |"customer"| && |TypeStatusList(kind, status)| > |"customer"| && |StatusList(status)| > |"customer"|;
    }
  }

  /** Over every run the list of all customers holds exactly those with a record, in the order of their
      registration. */
  lemma {:induction false} AllAreListed(events: seq<Event>)
    ensures Get(Run(events).lists, "customer") == RegisteredIds(events)
    ensures forall id :: id in RegisteredIds(events) <==> id in Run(events).records
  {
    if events != [] {
      var s, e := Run(events[..|events| - 1]), events[|events| - 1];
      AllAreListed(events[..|events| - 1]);
      ListOfAll(s, e);
      RList.AddAbsent(Get(s.lists, "customer"), e.id);
    }
  }

  /** Over every run, exactly which registrations succeed: a new id and number, asked for by a customer
      who is entitled to it, or by anyone while there are no customers. */
  lemma {:induction false} RegistersIff(events: seq<Event>, e: Event)
    requires e.Register?
    ensures var s := Run(events);
      Next(s, e) != s <==>
        && e.id != "" && e.id !in s.records && e.no !in s.index
        && (s.records == map[] || (CallerOf(s, e.caller).Some? && Entitled(CallerOf(s, e.caller).value, e.kind)))
  {
    var s := Run(events);
    NobodyListed(events);
    RegistrationChanges(s, e);
    MayRegisterIff(s, e);
  }

  lemma {:induction false} NobodyListed(events: seq<Event>)
    ensures Get(Run(events).lists, "customer") == [] <==> Run(events).records == map[]
  {
    var s := Run(events);
    AllAreListed(events);
    if Get(s.lists, "customer") != [] {
      assert Get(s.lists, "customer")[0] in s.records;
    }
  }

  lemma RegistrationChanges(s: State, e: Event)
    requires e.Register?
    ensures Next(s, e) != s <==> Accepted(s, e)
  {
    if Accepted(s, e) {
      assert e.id in Next(s, e).records;
    }
  }

  lemma MayRegisterIff(s: State, e: Event)
    requires e.Register?
    ensures MayRegister(s, e) <==>
      Get(s.lists, "customer") == [] || (CallerOf(s, e.caller).Some? && Entitled(CallerOf(s, e.caller).value, e.kind))
  {
  }

  /** A customer's record changes only by a modification of him that a customer of type 1 makes through
      joint approval; his number and registrar never do, and nobody is removed. */
  lemma ChangedOnlyByApproval(s: State, e: Event, id: string)
    requires id in s.records
    ensures id in Next(s, e).records
    ensures var c, c' := s.records[id], Next(s, e).records[id];
      && c'.no == c.no && c'.regBy == c.regBy
      && (c' != c ==>
           e.Modify? && e.id == id && e.fromApproval && CallerOf(s, e.caller).Some? && CallerOf(s, e.caller).value.kind == "1")
  {
  }

  /** And by every such modification, as it says. */
  lemma ModifiesIff(s: State, e: Event)
    requires e.Modify?
    ensures Accepted(s, e) <==>
      && e.id in s.records && CallerOf(s, e.caller).Some?
      && (Says(e, Kind).Some? || Says(e, Status).Some? || Says(e, Mark).Some? || e.other ==>
           e.fromApproval && CallerOf(s, e.caller).value.kind == "1")
  {
  }

  // ---------------------------------------------------------------- what the records hold

  datatype Field = Kind | Status | Mark

  /** What an event says about a field of its customer; an empty string in a modification says nothing. */
  function Says(e: Event, f: Field): Option<string> {
    if e.Register? then Some(match f case Kind => e.kind case Status => "1" case Mark => e.mark)
    else
      var v := match f case Kind => e.kind case Status => e.status case Mark => e.mark;
      if v == "" then None else Some(v)
  }

  function Of(c: Customer, f: Field): string {
    match f case Kind => c.kind case Status => c.status case Mark => c.mark
  }

  /** What the last accepted event on a customer that says something about the field says. */
  function LastSaid(events: seq<Event>, id: string, f: Field): Option<string> {
    if events == [] then None
    else
      var front, e := events[..|events| - 1], events[|events| - 1];
      if e.id == id && Accepted(Run(front), e) && Says(e, f).Some? then Says(e, f) else LastSaid(front, id, f)
  }

  /** Over every run a record holds what was last said about its customer. */
  lemma {:induction false} HoldsLastSaid(events: seq<Event>, id: string, f: Field)
    ensures LastSaid(events, id, f) == if id in Run(events).records then Some(Of(Run(events).records[id], f)) else None
  {
    if events != [] {
      HoldsLastSaid(events[..|events| - 1], id, f);
    }
  }

  /** The customer was registered by this event, by himself as the first one, or by the one named. */
  ghost predicate RegisteredBy(s: State, e: Event, id: string, c: Customer) {
    && e.Register? && e.id == id && e.no == c.no
    && if s.records == map[] then c.regBy == "system"
       else CallerOf(s, e.caller).Some? && c.regBy == CallerOf(s, e.caller).value.no &&
            Entitled(CallerOf(s, e.caller).value, e.kind)
  }

  ghost predicate RegisteredIn(events: seq<Event>, id: string, c: Customer) {
    exists m :: 0 <= m < |events| && RegisteredBy(Run(events[..m]), events[m], id, c)
  }

  /** Over every run each customer has his number from his registration, and his registrar was entitled
      to it. */
  lemma {:induction false} RegisteredRightly(events: seq<Event>, id: string)
    requires id in Run(events).records
    ensures RegisteredIn(events, id, Run(events).records[id])
  {
    var last := |events| - 1;
    var front, e := events[..last], events[last];
    if id in Run(front).records {
      RegisteredRightly(front, id);
      ChangedOnlyByApproval(Run(front), e, id);
      var m :| 0 <= m < last && RegisteredBy(Run(front[..m]), front[m], id, Run(front).records[id]);
      assert front[..m] == events[..m];
      assert RegisteredBy(Run(events[..m]), events[m], id, Run(events).records[id]);
    } else {
      RegistersIff(front, e);
      NobodyListed(front);
      assert RegisteredBy(Run(events[..last]), events[last], id, Run(events).records[id]);
    }
  }

  // ---------------------------------------------------------------- certificates

  /** A customer's certificate finds him. */
  ghost predicate Found(s: State, id: string) {
    id in s.records && CallerOf(s, s.records[id].mark) == Some(s.records[id]) && s.index[s.records[id].mark] == id
  }

  /** The names under which an event enters its customer in the index. */
  function Enters(e: Event): set<string> {
    if e.Register? then {e.id, e.no, e.mark} else if e.mark != "" then {e.mark} else {}
  }

  /** After his own registration or modification a customer is found by the certificate he has then. */
  lemma FoundByOwn(s: State, e: Event)
    requires Accepted(s, e) && (e.Modify? ==> Found(s, e.id)) && "" !in s.records
    ensures Found(Next(s, e), e.id)
  {
  }

  /** Another's leaves him found exactly if it does not enter his certificate. */
  lemma FoundIff(s: State, e: Event, id: string)
    requires Accepted(s, e) && Found(s, id) && e.id != id && (e.Modify? ==> Found(s, e.id))
    ensures Found(Next(s, e), id) <==> s.records[id].mark !in Enters(e)
  {
  }

  /** No accepted event enters the certificate of another customer. */
  ghost predicate OwnNames(events: seq<Event>) {
    forall i, id :: 0 <= i < |events| && Accepted(Run(events[..i]), events[i]) && id in Run(events[..i]).records && id != events[i].id ==>
      Run(events[..i]).records[id].mark !in Enters(events[i])
  }

  /** Over every such run every customer is found by his certificate. */
  lemma {:induction false} AllAreFound(events: seq<Event>)
    requires OwnNames(events)
    ensures "" !in Run(events).records && forall id :: id in Run(events).records ==> Found(Run(events), id)
  {
    if events != [] {
      var last := |events| - 1;
      var front, e := events[..last], events[last];
      var s := Run(front);
      assert forall i :: 0 <= i < last ==> front[..i] == events[..i] && front[i] == events[i];
      AllAreFound(front);
      if Accepted(s, e) {
        FoundByOwn(s, e);
        forall id | id in s.records && id != e.id
          ensures Found(Next(s, e), id)
        {
          assert s.records[id].mark !in Enters(events[last]);
          FoundIff(s, e, id);
        }
      }
    }
  }

  // ---------------------------------------------------------------- queries

  /** The customer has the type and the status asked for; an empty string asks for nothing. */
  ghost predicate AskedFor(s: State, id: string, kind: string, status: string) {
    id in s.records && (kind != "" ==> Is(s, id, kind)) && (status != "" ==> Has(s, id, status))
  }

  /** The pages of a query show exactly the customers asked for, each once, in the order of the list. */
  ghost predicate Serves(s: State, kind: string, status: string) {
    var list := Get(s.lists, Selected(kind, status));
    var rows := RList.AllRows(s.records, list, 20);
    && RList.Unique(list) && |rows| == |list|
    && (forall id :: id in list <==> AskedFor(s, id, kind, status))
    && forall i :: 0 <= i < |list| ==> list[i] in s.records && rows[i] == s.records[list[i]]
  }

  lemma {:induction false} SelectsAskedFor(events: seq<Event>, id: string, kind: string, status: string)
    requires PlainEvents(events) && Plain(kind) && Plain(status) && (kind == "" && status != "" ==> Undisturbed(events, id))
    ensures id in Get(Run(events).lists, Selected(kind, status)) <==> AskedFor(Run(events), id, kind, status)
  {
    if kind != "" {
      TypeListsMirror(events, id, kind, status);
    } else if status != "" {
      StatusListsMirror(events, id, status);
    } else {
      AllAreListed(events);
    }
  }

  /** Over every run, asking for every page of a query by type, by status, by both or by neither returns
      exactly the customers asked for; by status alone, if nothing has disturbed the status lists. */
  lemma {:induction false} QueryServes(events: seq<Event>, kind: string, status: string)
    requires PlainEvents(events) && Plain(kind) && Plain(status)
    requires kind == "" && status != "" ==> forall id :: Undisturbed(events, id)
    ensures Serves(Run(events), kind, status)
  {
    var s := Run(events);
    var list := Get(s.lists, Selected(kind, status));
    RunKeepsUnique(events);
    RunKeepsPlain(events);
    forall id
      ensures id in list <==> AskedFor(s, id, kind, status)
    {
      assert kind == "" && status != "" ==> Undisturbed(events, id);
      SelectsAskedFor(events, id, kind, status);
    }
    assert forall i :: 0 <= i < |list| ==> list[i] in list;
    RList.QueriesServeAll(s.records, list, 20);
  }
}
