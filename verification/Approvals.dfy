/** Joint approval: items that super users vote on, and the call made when one is passed. */
module Approvals {
  import opened Common
  import opened Voting
  import RList

  datatype Sign = Sign(customer: string, agrees: bool)

  /** createdWith is the number of signatures the item was created with. */
  datatype Item = Item(veto: string, call: string, creater: string, status: Status, signs: seq<Sign>, createdWith: nat)

  datatype Customer = Customer(no: string, kind: string, status: string)

  /** calls are the items whose call has been attempted, in order. */
  datatype State = State(
    items: map<string, Item>, all: seq<string>, byStatus: map<Status, seq<string>>, calls: seq<string>)

  function Init(): State { State(map[], [], map[Undecided := [], Passed := [], Rejected := []], []) }

  function Listed(s: State, status: Status): seq<string> {
    if status in s.byStatus then s.byStatus[status] else []
  }

  function Votes(signs: seq<Sign>): (v: seq<bool>)
    ensures |v| == |signs| && forall i :: 0 <= i < |v| ==> v[i] == signs[i].agrees
  {
    seq(|signs|, i requires 0 <= i < |signs| => signs[i].agrees)
  }

  predicate Signed(signs: seq<Sign>, customer: string) {
    exists i :: 0 <= i < |signs| && signs[i].customer == customer
  }

  predicate Super(caller: Customer) { caller.kind == "1" }

  /** A transaction that fails changes nothing. caller is the customer who submits it, n the number
      of super users found, or -1; prepared and header tell whether reading the installed code and
      the channel header succeeds. */
  datatype Event =
    | Create(id: string, veto: string, call: string, caller: Option<Customer>, n: int, prepared: bool, header: bool)
    | Vote(id: string, choice: string, caller: Option<Customer>, n: int, header: bool)

  function Tally(veto: string, n: int, signs: seq<Sign>): Status {
    Verdict(veto, n, In(Votes(signs)), Out(Votes(signs)))
  }

  function NewItem(e: Event, caller: Customer): Item
    requires e.Create?
  {
    var signs := if Super(caller) then [Sign(caller.no, true)] else [];
    var status := if e.n <= |signs| then Tally(e.veto, e.n, signs) else Undecided;
    Item(e.veto, e.call, caller.no, status, signs, |signs|)
  }

  function VotedItem(item: Item, e: Event, caller: Customer): Item
    requires e.Vote?
  {
    var signs := item.signs + [Sign(caller.no, e.choice == "1")];
    item.(signs := signs, status := Tally(item.veto, e.n, signs))
  }

  /** Whether a transaction succeeds. */
  predicate Accepted(s: State, e: Event) {
    && e.caller.Some? && e.caller.value.status == "1"
    && match e
       case Create(id, _, _, caller, _, prepared, header) =>
         id !in s.items && prepared && (NewItem(e, caller.value).status == Passed ==> header)
       case Vote(id, choice, caller, _, header) =>
         && (choice == "1" || choice == "2")
         && id in s.items && s.items[id].status == Undecided
         && Super(caller.value) && !Signed(s.items[id].signs, caller.value.no)
         && (VotedItem(s.items[id], e, caller.value).status == Passed ==> header)
  }

  function ItemAfter(s: State, e: Event): Item
    requires Accepted(s, e)
  {
    match e
    case Create(_, _, _, caller, _, _, _) => NewItem(e, caller.value)
    case Vote(id, _, caller, _, _) => VotedItem(s.items[id], e, caller.value)
  }

  /** The item is stored, stands in the list of its status and no other, and is called if passed. */
  function Next(s: State, e: Event): State {
    if !Accepted(s, e) then s
    else
      var item := ItemAfter(s, e);
      var rest := if e.Vote? && item.status != Undecided
                  then s.byStatus[Undecided := RList.Remove(Listed(s, Undecided), e.id)] else s.byStatus;
      var lists := if e.Vote? && item.status == Undecided then rest
                   else rest[item.status := RList.Add(Listed(s.(byStatus := rest), item.status), e.id)];
      State(s.items[e.id := item], if e.Create? then RList.Add(s.all, e.id) else s.all, lists,
            if item.status == Passed then s.calls + [e.id] else s.calls)
  }

  function Run(events: seq<Event>): State {
    if events == [] then Init() else Next(Run(events[..|events| - 1]), events[|events| - 1])
  }

  // ---------------------------------------------------------------- what every run keeps

  ghost predicate ListOk(s: State, status: Status) {
    && RList.Unique(Listed(s, status))
    && forall id :: id in Listed(s, status) <==> id in s.items && s.items[id].status == status
  }

  ghost predicate SignersDiffer(signs: seq<Sign>) {
    forall i, j :: 0 <= i < j < |signs| ==> signs[i].customer != signs[j].customer
  }

  ghost predicate CallsOk(s: State) {
    && RList.Unique(s.calls)
    && forall id :: id in s.calls <==> id in s.items && s.items[id].status == Passed
  }

  ghost predicate Inv(s: State) {
    && (forall status :: ListOk(s, status))
    && RList.Unique(s.all) && (forall id :: id in s.all <==> id in s.items)
    && (forall id :: id in s.items ==> SignersDiffer(s.items[id].signs))
    && CallsOk(s)
  }

  lemma CreateKeepsList(s: State, e: Event, status: Status)
    requires ListOk(s, status) && e.Create?
    ensures ListOk(Next(s, e), status)
  {
    RList.AddUnique(Listed(s, status), e.id);
  }

  lemma VoteKeepsList(s: State, e: Event, status: Status)
    requires ListOk(s, status) && e.Vote?
    ensures ListOk(Next(s, e), status)
  {
    RList.RemoveUnique(Listed(s, status), e.id);
    RList.AddUnique(Listed(s, status), e.id);
  }

  lemma NextKeepsCalls(s: State, e: Event)
    requires CallsOk(s)
    ensures CallsOk(Next(s, e))
  {
    if Accepted(s, e) {
      assert e.id !in s.calls;
    }
  }

  lemma NextKeepsSigners(s: State, e: Event)
    requires Accepted(s, e) && forall id :: id in s.items ==> SignersDiffer(s.items[id].signs)
    ensures SignersDiffer(ItemAfter(s, e).signs)
  {
  }

  lemma {:induction false} RunKeepsInv(events: seq<Event>)
    ensures Inv(Run(events))
  {
    if events != [] {
      var e := events[|events| - 1];
      var s := Run(events[..|events| - 1]);
      RunKeepsInv(events[..|events| - 1]);
      forall status
        ensures ListOk(Next(s, e), status)
      {
        assert ListOk(s, status);
        if e.Create? {
          CreateKeepsList(s, e, status);
        } else {
          VoteKeepsList(s, e, status);
        }
      }
      NextKeepsCalls(s, e);
      if Accepted(s, e) {
        NextKeepsSigners(s, e);
        RList.AddUnique(s.all, e.id);
      }
    }
  }

  /** No super user signs an item twice. */
  lemma {:induction false} NobodySignsTwice(events: seq<Event>, id: string)
    ensures id in Run(events).items ==> SignersDiffer(Run(events).items[id].signs)
  {
    RunKeepsInv(events);
  }

  /** An item stands in the list of a status, once, exactly when that is its status. */
  lemma {:induction false} ListsMirrorStatus(events: seq<Event>, id: string, status: Status)
    ensures var s := Run(events);
      && (id in Listed(s, status) <==> id in s.items && s.items[id].status == status)
      && (id in s.all <==> id in s.items)
      && RList.Unique(Listed(s, status)) && RList.Unique(s.all)
  {
    RunKeepsInv(events);
    assert ListOk(Run(events), status);
  }

  /** Calls are attempted for the passed items and no others, once each. */
  lemma {:induction false} CalledOnceIffPassed(events: seq<Event>, id: string)
    ensures var s := Run(events);
      multiset(s.calls)[id] == if id in s.items && s.items[id].status == Passed then 1 else 0
  {
    RunKeepsInv(events);
    OccursOnce(Run(events).calls, id);
  }

  lemma {:induction false} OccursOnce(s: seq<string>, x: string)
    requires RList.Unique(s)
    ensures multiset(s)[x] == if x in s then 1 else 0
  {
    if s != [] {
      var front, last := s[..|s| - 1], s[|s| - 1];
      assert s == front + [last];
      assert last !in front;
      OccursOnce(front, x);
    }
  }

  /** Nothing that happens later takes a signature back or changes a decision. */
  lemma {:induction false} DecisionsStand(events: seq<Event>, more: seq<Event>, id: string)
    requires id in Run(events).items
    ensures id in Run(events + more).items
    ensures var item, item' := Run(events).items[id], Run(events + more).items[id];
      && (item.status != Undecided ==> item' == item)
      && item.signs <= item'.signs
      && item'.veto == item.veto && item'.call == item.call && item'.creater == item.creater
  {
    if more == [] {
      assert events + more == events;
    } else {
      var all := events + more;
      assert all[..|all| - 1] == events + more[..|more| - 1];
      DecisionsStand(events, more[..|more| - 1], id);
    }
  }

  // ---------------------------------------------------------------- who signs, and what is stored

  predicate Active(caller: Option<Customer>) { caller.Some? && caller.value.status == "1" }

  predicate ActiveSuper(caller: Option<Customer>) { Active(caller) && caller.value.kind == "1" }

  /** An active super user has given this signature on the item by this event: in favour by creating
      the item, and as chosen by voting. */
  predicate SignedBy(e: Event, id: string, sign: Sign) {
    && e.id == id && ActiveSuper(e.caller) && e.caller.value.no == sign.customer
    && (if e.Create? then sign.agrees else e.choice == if sign.agrees then "1" else "2")
  }

  ghost predicate SignedIn(events: seq<Event>, id: string, sign: Sign) {
    exists m :: 0 <= m < |events| && SignedBy(events[m], id, sign)
  }

  lemma SignedStays(events: seq<Event>, id: string, sign: Sign)
    requires events != [] && SignedIn(events[..|events| - 1], id, sign)
    ensures SignedIn(events, id, sign)
  {
    var m :| 0 <= m < |events| - 1 && SignedBy(events[..|events| - 1][m], id, sign);
    assert SignedBy(events[m], id, sign);
  }

  /** Over every run each signature of each item is one that an active super user has given on it. */
  lemma {:induction false} SignedBySuperUsers(events: seq<Event>, id: string, i: nat)
    requires id in Run(events).items && i < |Run(events).items[id].signs|
    ensures SignedIn(events, id, Run(events).items[id].signs[i])
  {
    var last := |events| - 1;
    var s, e, sign := Run(events[..last]), events[last], Run(events).items[id].signs[i];
    if id in s.items && i < |s.items[id].signs| {
      SignsStay(s, e, id);
      SignedBySuperUsers(events[..last], id, i);
      SignedStays(events, id, sign);
    } else {
      assert SignedBy(events[last], id, sign);
    }
  }

  lemma SignsStay(s: State, e: Event, id: string)
    requires id in s.items
    ensures id in Next(s, e).items && s.items[id].signs <= Next(s, e).items[id].signs
  {
  }

  /** The item is the one this event asks for. */
  predicate CreatedBy(e: Event, id: string, item: Item) {
    && e.Create? && e.id == id && Active(e.caller)
    && item.veto == e.veto && item.call == e.call && item.creater == e.caller.value.no
    && item.createdWith == (if e.caller.value.kind == "1" then 1 else 0) && item.createdWith <= |item.signs|
    && (item.createdWith == 1 ==> item.signs[0] == Sign(item.creater, true))
  }

  ghost predicate CreatedIn(events: seq<Event>, id: string, item: Item) {
    exists m :: 0 <= m < |events| && CreatedBy(events[m], id, item)
  }

  /** Over every run each item is what some active customer asked for, signed by him at its creation
      exactly if he is a super user. */
  lemma {:induction false} CreatedAsAsked(events: seq<Event>, id: string)
    requires id in Run(events).items
    ensures CreatedIn(events, id, Run(events).items[id])
  {
    var last := |events| - 1;
    var s, e, item := Run(events[..last]), events[last], Run(events).items[id];
    if id in s.items {
      CreatedAsAsked(events[..last], id);
      SignsStay(s, e, id);
      var m :| 0 <= m < last && CreatedBy(events[..last][m], id, s.items[id]);
      assert CreatedBy(events[m], id, item);
    } else {
      assert CreatedBy(events[last], id, item);
    }
  }

  /** Exactly which votes count, and that they leave all other items alone: those of active super users
      who have not signed yet, on an undecided item. */
  lemma VoteCountsIff(s: State, e: Event)
    requires e.Vote? && e.header
    ensures Next(s, e) != s <==>
      && ActiveSuper(e.caller) && (e.choice == "1" || e.choice == "2")
      && e.id in s.items && s.items[e.id].status == Undecided
      && forall i :: 0 <= i < |s.items[e.id].signs| ==> s.items[e.id].signs[i].customer != e.caller.value.no
    ensures Next(s, e) != s ==>
      && Next(s, e).items.Keys == s.items.Keys && (forall o :: o in s.items && o != e.id ==> Next(s, e).items[o] == s.items[o])
      && Next(s, e).items[e.id].signs == s.items[e.id].signs + [Sign(e.caller.value.no, e.choice == "1")]
  {
    if Accepted(s, e) {
      assert |Next(s, e).items[e.id].signs| != |s.items[e.id].signs|;
    }
  }

  /** Exactly which creations succeed: of an active customer, with a new id, if the code can be read. */
  lemma CreationSucceedsIff(s: State, e: Event)
    requires e.Create? && e.header
    ensures Next(s, e) != s <==> Active(e.caller) && e.id !in s.items && e.prepared
    ensures Next(s, e) != s ==>
      Next(s, e).items.Keys == s.items.Keys + {e.id} && forall o :: o in s.items ==> Next(s, e).items[o] == s.items[o]
  {
    if Accepted(s, e) {
      assert e.id in Next(s, e).items;
    }
  }

  function WithHeader(e: Event, header: bool): Event {
    match e
    case Create(id, veto, call, caller, n, prepared, _) => Create(id, veto, call, caller, n, prepared, header)
    case Vote(id, choice, caller, n, _) => Vote(id, choice, caller, n, header)
  }

  /** A channel header that cannot be read matters exactly to those transactions that pass the item. */
  lemma HeaderNeeded(s: State, e: Event)
    ensures var s' := Next(s, WithHeader(e, true));
      Next(s, WithHeader(e, false)) == if e.id in s'.items && s'.items[e.id].status == Passed && s' != s then s else s'
  {
    if e.Create? {
      CreationSucceedsIff(s, WithHeader(e, true));
    } else {
      VoteCountsIff(s, WithHeader(e, true));
    }
  }

  /** The ids of the items, in the order of their creation. */
  function CreatedIds(events: seq<Event>): seq<string> {
    if events == [] then []
    else
      var front, id := events[..|events| - 1], events[|events| - 1].id;
      CreatedIds(front) + if id in Run(events).items && id !in Run(front).items then [id] else []
  }

  /** Over every run the list of all items is in the order of their creation, and that of the passed
      ones in the order in which their calls were attempted. */
  lemma {:induction false} ListsInOrder(events: seq<Event>)
    ensures Run(events).all == CreatedIds(events) && Listed(Run(events), Passed) == Run(events).calls
  {
    if events != [] {
      var s, e := Run(events[..|events| - 1]), events[|events| - 1];
      ListsInOrder(events[..|events| - 1]);
      RunKeepsInv(events[..|events| - 1]);
      assert ListOk(s, Passed);
      ListsGrow(s, e);
    }
  }

  lemma ListsGrow(s: State, e: Event)
    requires ListOk(s, Passed) && (forall id :: id in s.all <==> id in s.items)
    ensures var s' := Next(s, e); var passes := Accepted(s, e) && ItemAfter(s, e).status == Passed;
      && s'.all == s.all + (if e.id in s'.items && e.id !in s.items then [e.id] else [])
      && Listed(s', Passed) == Listed(s, Passed) + (if passes then [e.id] else [])
      && s'.calls == s.calls + (if passes then [e.id] else [])
  {
    RList.AddAbsent(s.all, e.id);
    RList.AddAbsent(Listed(s, Passed), e.id);
  }

  // ---------------------------------------------------------------- voting to the end

  /** Every event finds n super users. */
  ghost predicate FixedCount(events: seq<Event>, n: int) {
    forall i :: 0 <= i < |events| ==> events[i].n == n
  }

  predicate CreatorSigned(item: Item) { item.createdWith == 1 }

  ghost predicate ByTheRule(item: Item, n: int) {
    && item.createdWith <= 1 && item.createdWith <= |item.signs|
    && (CreatorSigned(item) ==> item.signs[0].agrees)
    && item.status == After(item.veto, n, CreatorSigned(item), Votes(item.signs))
  }

  lemma CreatedByTheRule(e: Event, caller: Customer)
    requires e.Create? && e.n >= 1
    ensures ByTheRule(NewItem(e, caller), e.n)
  {
    var votes := Votes(NewItem(e, caller).signs);
    if votes != [] {
      assert votes[..|votes| - 1] == [];
    }
  }

  lemma VotedByTheRule(item: Item, e: Event, caller: Customer)
    requires e.Vote? && e.n >= 1 && ByTheRule(item, e.n) && item.status == Undecided
    ensures ByTheRule(VotedItem(item, e, caller), e.n)
  {
    var votes := Votes(VotedItem(item, e, caller).signs);
    assert votes[..|votes| - 1] == Votes(item.signs);
  }

  /** With a fixed number of super users, an item's status is what the voting rule gives for its
      signatures in their order. */
  lemma {:induction false} StatusByTheRule(events: seq<Event>, n: int, id: string)
    requires n >= 1 && FixedCount(events, n)
    ensures id in Run(events).items ==> ByTheRule(Run(events).items[id], n)
  {
    if events != [] {
      var e := events[|events| - 1];
      var s := Run(events[..|events| - 1]);
      StatusByTheRule(events[..|events| - 1], n, id);
      if Accepted(s, e) && e.id == id {
        if e.Create? {
          CreatedByTheRule(e, e.caller.value);
        } else {
          VotedByTheRule(s.items[id], e, e.caller.value);
        }
      }
    }
  }

  /** The vote of an active super user. */
  function Ballot(id: string, n: int, sign: Sign): Event {
    Vote(id, if sign.agrees then "1" else "2", Some(Customer(sign.customer, "1", "1")), n, true)
  }

  /** Super users submit their votes one after the other. */
  function Poll(s: State, id: string, n: int, signs: seq<Sign>): State {
    if signs == [] then s
    else Next(Poll(s, id, n, signs[..|signs| - 1]), Ballot(id, n, signs[|signs| - 1]))
  }

  lemma {:induction false} PollByTheRule(s: State, id: string, n: int, signs: seq<Sign>)
    requires n >= 1 && id in s.items && ByTheRule(s.items[id], n) && SignersDiffer(s.items[id].signs + signs)
    ensures var item := s.items[id]; var s' := Poll(s, id, n, signs);
      && id in s'.items
      && s'.items[id].status == After(item.veto, n, CreatorSigned(item), Votes(item.signs + signs))
      && (s'.items[id].status == Undecided ==> s'.items[id] == item.(signs := item.signs + signs))
  {
    var item := s.items[id];
    if signs == [] {
      assert item.signs + signs == item.signs;
    } else {
      var front, last := signs[..|signs| - 1], signs[|signs| - 1];
      var before, all := item.signs + front, item.signs + signs;
      assert all == before + [last];
      FrontDiffers(before, last);
      PollByTheRule(s, id, n, front);
      LastBallot(Poll(s, id, n, front), Ballot(id, n, last), item, before, last);
    }
  }

  lemma FrontDiffers(signs: seq<Sign>, last: Sign)
    requires SignersDiffer(signs + [last])
    ensures SignersDiffer(signs)
  {
    var all := signs + [last];
    assert forall i :: 0 <= i < |signs| ==> signs[i] == all[i];
  }

  /** When an item's remaining super users all submit their votes, its status is what the rule
      gives for all the votes, although those after the verdict are refused. */
  lemma {:induction false} FullBallot(events: seq<Event>, n: int, id: string, signs: seq<Sign>)
    requires n >= 1 && FixedCount(events, n) && id in Run(events).items
    requires SignersDiffer(Run(events).items[id].signs + signs)
    ensures var item := Run(events).items[id]; var s' := Poll(Run(events), id, n, signs);
      id in s'.items && s'.items[id].status == After(item.veto, n, CreatorSigned(item), Votes(item.signs + signs))
  {
    StatusByTheRule(events, n, id);
    PollByTheRule(Run(events), id, n, signs);
  }

  /** Once all n super users have voted on an item of veto type 1 or 3, only the totals matter;
      types 1 and 2 are decided. */
  lemma {:induction false} AllHaveVoted(events: seq<Event>, n: int, id: string, signs: seq<Sign>)
    requires n >= 1 && FixedCount(events, n) && id in Run(events).items
    requires SignersDiffer(Run(events).items[id].signs + signs) && |Run(events).items[id].signs + signs| == n
    ensures var item := Run(events).items[id]; var s' := Poll(Run(events), id, n, signs);
      && id in s'.items
      && (item.veto != "2" ==> s'.items[id].status == Tally(item.veto, n, item.signs + signs))
      && (item.veto == "1" || item.veto == "2" ==> s'.items[id].status != Undecided)
  {
    StatusByTheRule(events, n, id);
    FullBallot(events, n, id, signs);
    var item := Run(events).items[id];
    var votes := Votes(item.signs + signs);
    DecidedInTheEnd(item.veto, n, CreatorSigned(item), votes);
    if item.veto != "2" {
      TotalsDecide(item.veto, n, CreatorSigned(item), votes);
    }
  }

  lemma LastBallot(s: State, e: Event, item: Item, signs: seq<Sign>, last: Sign)
    requires e.Vote? && e.header && e.id in s.items && SignersDiffer(signs + [last])
    requires e.choice == (if last.agrees then "1" else "2") && e.caller == Some(Customer(last.customer, "1", "1"))
    requires CreatorSigned(item) ==> signs != []
    requires s.items[e.id].status == After(item.veto, e.n, CreatorSigned(item), Votes(signs))
    requires s.items[e.id].status == Undecided ==> s.items[e.id] == item.(signs := signs)
    ensures var s' := Next(s, e);
      && e.id in s'.items
      && s'.items[e.id].status == After(item.veto, e.n, CreatorSigned(item), Votes(signs + [last]))
      && (s'.items[e.id].status == Undecided ==> s'.items[e.id] == item.(signs := signs + [last]))
  {
    var votes := Votes(signs + [last]);
    assert votes[..|votes| - 1] == Votes(signs);
    if s.items[e.id].status == Undecided {
      assert (signs + [last])[|signs|] == last;
      assert forall i :: 0 <= i < |signs| ==> (signs + [last])[i].customer != last.customer;
      assert !Signed(signs, last.customer);
    }
  }

  /** A new item passes at once exactly when no more super users are counted than have signed it:
      so also without any vote when there are none or they cannot be counted. */
  lemma PassedAtOnce(s: State, e: Event)
    requires e.Create? && Accepted(s, e) && e.n >= -1 && (e.veto == "1" || e.veto == "2" || e.veto == "3")
    ensures Next(s, e).items[e.id].status == Passed <==> e.n <= if Super(e.caller.value) then 1 else 0
  {
    var votes := Votes(NewItem(e, e.caller.value).signs);
    if votes != [] {
      assert In(votes[..0]) == 0 && In(votes) == 1;
    }
  }

  /** The pages of the list of a status show its items, newest first, but not one with the empty id. */
  ghost predicate ShowsAll(s: State, status: Status) {
    var list := Listed(s, status);
    var rows, shown := RList.AllRows(s.items, RList.Reverse(list), 100), RList.Shown(list);
    && |rows| == |shown| && RList.Unique(shown)
    && (forall id :: id in shown <==> id != "" && id in s.items && s.items[id].status == status)
    && forall i :: 0 <= i < |shown| ==> shown[i] in s.items && rows[i] == s.items[shown[i]]
  }

  lemma ListShown(s: State, status: Status)
    requires ListOk(s, status)
    ensures ShowsAll(s, status)
  {
    var list := Listed(s, status);
    RList.ShownIsListed(list);
    RList.ReverseUnique(list);
    RList.QueriesShowNamed(s.items, RList.Reverse(list), 100);
  }

  /** Over every run, the pages of a status list show its items with a non-empty id, each once and
      the newest first. */
  lemma {:induction false} PagesShowAll(events: seq<Event>, status: Status)
    ensures ShowsAll(Run(events), status)
  {
    RunKeepsInv(events);
    ListShown(Run(events), status);
  }

  // ---------------------------------------------------------------- the chaincode

  class Chaincode {
    var items: map<string, Item>
    var all: seq<string>
    var byStatus: map<Status, seq<string>>
    var calls: seq<string>

    ghost function Contents(): State
      reads this
    {
      State(items, all, byStatus, calls)
    }

    constructor ()
      ensures Contents() == Init()
    {
      items, all, calls := map[], [], [];
      byStatus := map[Undecided := [], Passed := [], Rejected := []];
    }

    /** newApproval. */
    method NewApproval(id: string, veto: string, call: string, caller: Option<Customer>, n: int, prepared: bool, header: bool)
      returns (ok: bool)
      modifies this
      ensures var e := Create(id, veto, call, caller, n, prepared, header);
        ok == Accepted(old(Contents()), e) && Contents() == Next(old(Contents()), e)
    {
      if id in items || caller.None? || caller.value.status != "1" {
        return false;
      }
      var signs: seq<Sign> := [];
      if caller.value.kind == "1" {
        signs := [Sign(caller.value.no, true)];
      }
      if !prepared {
        return false;
      }
      var status := Undecided;
      if n <= |signs| {
        status := CountVotes(veto, n, signs);
        if status == Passed && !header {
          return false;
        }
      }
      items := items[id := Item(veto, call, caller.value.no, status, signs, |signs|)];
      all := RList.Add(all, id);
      byStatus := byStatus[status := RList.Add(if status in byStatus then byStatus[status] else [], id)];
      if status == Passed {
        calls := calls + [id];
      }
      return true;
    }

    /** approval. */
    method Approval(id: string, choice: string, caller: Option<Customer>, n: int, header: bool) returns (ok: bool)
      modifies this
      ensures var e := Vote(id, choice, caller, n, header);
        ok == Accepted(old(Contents()), e) && Contents() == Next(old(Contents()), e)
    {
      if (choice != "1" && choice != "2") || id !in items || items[id].status != Undecided {
        return false;
      }
      var item := items[id];
      if caller.None? || caller.value.status != "1" || caller.value.kind != "1" {
        return false;
      }
      var signed := HasSigned(item.signs, caller.value.no);
      if signed {
        return false;
      }
      item := item.(signs := item.signs + [Sign(caller.value.no, choice == "1")]);
      var status := CountVotes(item.veto, n, item.signs);
      item := item.(status := status);
      if status == Passed && !header {
        return false;
      }
      if status != Undecided {
        byStatus := byStatus[Undecided := RList.Remove(if Undecided in byStatus then byStatus[Undecided] else [], id)];
        byStatus := byStatus[status := RList.Add(if status in byStatus then byStatus[status] else [], id)];
      }
      if status == Passed {
        calls := calls + [id];
      }
      items := items[id := item];
      return true;
    }

    /** queryAllApproval: the newest first, 100 on a page. */
    method QueryAllApproval(status: Option<Status>, cpno: int) returns (page: nat, total: nat, rows: seq<Item>)
      ensures var list := RList.Reverse(if status.None? then all else Listed(Contents(), status.value));
        && total == |list| && page == RList.Clamp(|list|, 100, cpno)
        && rows == RList.Query(items, list, 100, cpno)
    {
      var list := if status.None? then all else if status.value in byStatus then byStatus[status.value] else [];
      total := |list|;
      page := RList.Clamp(total, 100, cpno);
      var first, end := page * 100, RList.PageEnd(total, 100, page);
      RList.PageBounds(total, 100, page);
      ghost var back := RList.Reverse(list);
      rows := [];
      for i := first to end
        invariant rows == RList.Rows(items, back[first..i])
      {
        var id := list[total - i - 1];
        RList.RowsNext(items, back, first, i);
        if |id| > 0 && id in items {
          rows := rows + [items[id]];
        }
      }
    }
  }

  method HasSigned(signs: seq<Sign>, customer: string) returns (r: bool)
    ensures r <==> Signed(signs, customer)
  {
    for i := 0 to |signs|
      invariant !Signed(signs[..i], customer)
    {
      if signs[i].customer == customer {
        return true;
      }
      assert forall k :: 0 <= k < i ==> signs[..i + 1][k] == signs[..i][k];
    }
    assert signs[..|signs|] == signs;
    return false;
  }

  /** Counts the votes and compares them with the thresholds of the veto type. */
  method CountVotes(veto: string, n: int, signs: seq<Sign>) returns (status: Status)
    ensures status == Tally(veto, n, signs)
  {
    var yes, no := 0, 0;
    for i := 0 to |signs|
      invariant yes == In(Votes(signs[..i])) && no == i - yes
    {
      assert Votes(signs[..i + 1])[..i] == Votes(signs[..i]);
      if signs[i].agrees {
        yes := yes + 1;
      } else {
        no := no + 1;
      }
    }
    assert signs[..|signs|] == signs;
    status := Undecided;
    if veto == "1" {
      if no > 0 {
        status := Rejected;
      } else if yes >= n {
        status := Passed;
      }
    } else if veto == "2" {
      if no > (n + 1) / 3 {
        status := Rejected;
      } else if yes >= (n + 2) / 3 {
        status := Passed;
      }
    } else if veto == "3" {
      if no > (n + 1) / 2 {
        status := Rejected;
      } else if yes >= (n + 1) / 2 {
        status := Passed;
      }
    }
  }
}
