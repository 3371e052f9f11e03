/** When a joint approval is decided: the thresholds of the three veto types. */
module Voting {

  datatype Status = Undecided | Passed | Rejected   // "1", "2" and "3"

  function In(votes: seq<bool>): (n: nat)
    ensures n <= |votes|
  {
    if votes == [] then 0 else In(votes[..|votes| - 1]) + if votes[|votes| - 1] then 1 else 0
  }

  function Out(votes: seq<bool>): nat { |votes| - In(votes) }

  predicate Agreed(veto: string, n: int, yes: nat) {
    match veto
    case "1" => yes >= n
    case "2" => yes >= (n + 2) / 3
    case "3" => yes >= (n + 1) / 2
    case _ => false
  }

  predicate Opposed(veto: string, n: int, no: nat) {
    match veto
    case "1" => no > 0
    case "2" => no > (n + 1) / 3
    case "3" => no > (n + 1) / 2
    case _ => false
  }

  /** The tally among n super users; opposition is looked at first. */
  function Verdict(veto: string, n: int, yes: nat, no: nat): Status {
    if Opposed(veto, n, no) then Rejected else if Agreed(veto, n, yes) then Passed else Undecided
  }

  /** The thresholds, without rounding: with one vote against, type 1 is rejected, and it passes with all
      in favour; type 2 is rejected with more than a third of n + 1 against, and passes with a third of n
      in favour; type 3 likewise with halves. */
  lemma Thresholds(n: int, yes: nat, no: nat)
    requires n >= -1
    ensures Verdict("1", n, yes, no) == if no >= 1 then Rejected else if yes >= n then Passed else Undecided
    ensures Verdict("2", n, yes, no) == if 3 * no > n + 1 then Rejected else if 3 * yes >= n then Passed else Undecided
    ensures Verdict("3", n, yes, no) == if 2 * no > n + 1 then Rejected else if 2 * yes >= n then Passed else Undecided
    ensures forall veto :: veto != "1" && veto != "2" && veto != "3" ==> Verdict(veto, n, yes, no) == Undecided
  {
  }

  /** The status after these votes in this order: voting ends with the first verdict. A creator who
      is a super user votes with the creation, and with n > 1 that vote alone is not tallied. */
  function After(veto: string, n: int, creator: bool, votes: seq<bool>): Status {
    if votes == [] then Undecided
    else
      var before := After(veto, n, creator, votes[..|votes| - 1]);
      if before != Undecided then before
      else if creator && |votes| == 1 && n > 1 then Undecided
      else Verdict(veto, n, In(votes), Out(votes))
  }

  lemma {:induction false} Sticky(veto: string, n: int, creator: bool, votes: seq<bool>, more: seq<bool>)
    requires After(veto, n, creator, votes) != Undecided
    ensures After(veto, n, creator, votes + more) == After(veto, n, creator, votes)
  {
    if more == [] {
      assert votes + more == votes;
    } else {
      var all := votes + more;
      assert all[..|all| - 1] == votes + more[..|more| - 1];
      Sticky(veto, n, creator, votes, more[..|more| - 1]);
    }
  }

  /** A verdict is backed by the totals, and there is none only if the totals give none. */
  lemma {:induction false} BackedByTotals(veto: string, n: int, creator: bool, votes: seq<bool>)
    ensures After(veto, n, creator, votes) == Passed ==> Agreed(veto, n, In(votes))
    ensures After(veto, n, creator, votes) == Rejected ==> Opposed(veto, n, Out(votes))
    ensures After(veto, n, creator, votes) == Undecided && votes != [] && !(creator && |votes| == 1 && n > 1) ==>
      Verdict(veto, n, In(votes), Out(votes)) == Undecided
  {
    if votes != [] {
      BackedByTotals(veto, n, creator, votes[..|votes| - 1]);
    }
  }

  /** All n super users have voted, the creator first if he is one. */
  ghost predicate Ballot(n: nat, creator: bool, votes: seq<bool>) {
    n >= 1 && |votes| == n && (creator ==> votes[0])
  }

  ghost predicate Contested(veto: string, n: nat, yes: nat, no: nat) {
    Agreed(veto, n, yes) && Opposed(veto, n, no)
  }

  /** Unless the totals reach both thresholds, the order of the votes does not matter. */
  lemma Uncontested(veto: string, n: nat, creator: bool, votes: seq<bool>)
    requires Ballot(n, creator, votes) && !Contested(veto, n, In(votes), Out(votes))
    ensures After(veto, n, creator, votes) == Verdict(veto, n, In(votes), Out(votes))
  {
    BackedByTotals(veto, n, creator, votes);
  }

  /** Veto types 1 and 3: the verdict depends on the totals alone. */
  lemma TotalsDecide(veto: string, n: nat, creator: bool, votes: seq<bool>)
    requires Ballot(n, creator, votes) && veto != "2"
    ensures After(veto, n, creator, votes) == Verdict(veto, n, In(votes), Out(votes))
  {
    Uncontested(veto, n, creator, votes);
  }

  /** After all votes types 1 and 2 are decided; type 3 is not exactly when n is odd and (n + 1) / 2
      voted against. */
  lemma DecidedInTheEnd(veto: string, n: nat, creator: bool, votes: seq<bool>)
    requires Ballot(n, creator, votes)
    ensures veto == "1" || veto == "2" ==> After(veto, n, creator, votes) != Undecided
    ensures veto == "3" ==>
      (After(veto, n, creator, votes) == Undecided <==> n % 2 == 1 && Out(votes) == (n + 1) / 2)
  {
    BackedByTotals(veto, n, creator, votes);
  }

  /** What all n votes together give: type 1 passes exactly if all agree, and type 3 exactly if at least
      half of them do. */
  lemma FullBallotGives(n: nat, creator: bool, votes: seq<bool>)
    requires Ballot(n, creator, votes)
    ensures After("1", n, creator, votes) == if In(votes) == n then Passed else Rejected
    ensures After("3", n, creator, votes) ==
      if 2 * In(votes) >= n then Passed else if 2 * (n - In(votes)) > n + 1 then Rejected else Undecided
  {
    TotalsDecide("1", n, creator, votes);
    TotalsDecide("3", n, creator, votes);
    Thresholds(n, In(votes), Out(votes));
  }

  /** In counts the votes in favour. */
  lemma {:induction false} InCounts(votes: seq<bool>)
    ensures In(votes) == multiset(votes)[true] && Out(votes) == multiset(votes)[false]
  {
    if votes != [] {
      var front, last := votes[..|votes| - 1], votes[|votes| - 1];
      InCounts(front);
      assert votes == front + [last];
    }
  }

  function Repeat(b: bool, k: nat): (r: seq<bool>)
    ensures |r| == k && forall i :: 0 <= i < k ==> r[i] == b
  {
    seq(k, _ => b)
  }

  lemma {:induction false} InOfRepeat(votes: seq<bool>, b: bool, k: nat)
    ensures In(votes + Repeat(b, k)) == In(votes) + if b then k else 0
  {
    if k == 0 {
      assert votes + Repeat(b, 0) == votes;
    } else {
      InOfRepeat(votes, b, k - 1);
      var all := votes + Repeat(b, k);
      assert all[..|all| - 1] == votes + Repeat(b, k - 1);
    }
  }

  lemma AllAgree(n: nat, creator: bool, yes: nat)
    requires n >= 1 && Agreed("2", n, yes) && (creator ==> n >= 4)
    ensures In(Repeat(true, yes)) == yes && After("2", n, creator, Repeat(true, yes)) == Passed
  {
    var votes := Repeat(true, yes);
    InOfRepeat([], true, yes);
    assert [] + votes == votes;
    assert !Opposed("2", n, 0);
    BackedByTotals("2", n, creator, votes);
  }

  /** Agreement first: passed as soon as enough have agreed. */
  lemma AgreeFirst(n: nat, creator: bool, yes: nat, no: nat)
    requires yes + no == n >= 1 && Agreed("2", n, yes) && (creator ==> n >= 4)
    ensures var votes := Repeat(true, yes) + Repeat(false, no);
      Ballot(n, creator, votes) && In(votes) == yes && After("2", n, creator, votes) == Passed
  {
    AllAgree(n, creator, yes);
    InOfRepeat(Repeat(true, yes), false, no);
    Sticky("2", n, creator, Repeat(true, yes), Repeat(false, no));
  }

  /** The creator's vote, if he has one, and then votes against. */
  function AgainstFirst(creator: bool, no: nat): (votes: seq<bool>)
    ensures |votes| == no + if creator then 1 else 0
    ensures creator ==> votes[0]
  {
    Repeat(true, if creator then 1 else 0) + Repeat(false, no)
  }

  lemma CountAgainst(creator: bool, no: nat)
    ensures In(AgainstFirst(creator, no)) == (if creator then 1 else 0) && Out(AgainstFirst(creator, no)) == no
  {
    var c := if creator then 1 else 0;
    InOfRepeat([], true, c);
    assert [] + Repeat(true, c) == Repeat(true, c);
    InOfRepeat(Repeat(true, c), false, no);
  }

  lemma AgainstRejects(n: nat, creator: bool, no: nat)
    requires n >= 1 && Opposed("2", n, no) && (creator ==> n >= 4)
    ensures After("2", n, creator, AgainstFirst(creator, no)) == Rejected
  {
    CountAgainst(creator, no);
    BackedByTotals("2", n, creator, AgainstFirst(creator, no));
  }

  /** Opposition first, after the creator's vote: rejected before enough have agreed. */
  lemma OpposeFirst(n: nat, creator: bool, yes: nat, no: nat)
    requires yes + no == n >= 1 && Opposed("2", n, no)
    requires creator ==> n >= 4 && yes >= 1
    ensures var votes := AgainstFirst(creator, no) + Repeat(true, yes - if creator then 1 else 0);
      Ballot(n, creator, votes) && In(votes) == yes && After("2", n, creator, votes) == Rejected
  {
    var first, rest := AgainstFirst(creator, no), yes - if creator then 1 else 0;
    CountAgainst(creator, no);
    AgainstRejects(n, creator, no);
    InOfRepeat(first, true, rest);
    Sticky("2", n, creator, first, Repeat(true, rest));
  }

  /** Some two orders of the same votes end differently. */
  ghost predicate OrderMatters(n: nat, creator: bool, yes: nat) {
    exists a, b :: Ballot(n, creator, a) && Ballot(n, creator, b) && In(a) == yes == In(b)
                && After("2", n, creator, a) != After("2", n, creator, b)
  }

  /** Veto type 2: the order matters exactly when both thresholds are reached, and for a creator
      who votes only with at least four super users. */
  lemma TypeTwoOrder(n: nat, creator: bool, yes: nat, no: nat)
    requires yes + no == n >= 1 && (creator ==> yes >= 1)
    ensures OrderMatters(n, creator, yes) <==> Contested("2", n, yes, no) && (creator ==> n >= 4)
  {
    if Contested("2", n, yes, no) && (creator ==> n >= 4) {
      AgreeFirst(n, creator, yes, no);
      OpposeFirst(n, creator, yes, no);
      var a := Repeat(true, yes) + Repeat(false, no);
      var b := AgainstFirst(creator, no) + Repeat(true, yes - if creator then 1 else 0);
      assert After("2", n, creator, a) != After("2", n, creator, b);
    } else {
      forall votes | Ballot(n, creator, votes) && In(votes) == yes
        ensures After("2", n, creator, votes) == if Contested("2", n, yes, no) then Passed else Verdict("2", n, yes, no)
      {
        if Contested("2", n, yes, no) {
          ThreeWithCreator(votes);
        } else {
          Uncontested("2", n, creator, votes);
        }
      }
    }
  }

  /** With three super users the creator's vote and the first vote against pass the item. */
  lemma ThreeWithCreator(votes: seq<bool>)
    requires Ballot(3, true, votes)
    ensures After("2", 3, true, votes) == Passed
  {
    var two := votes[..2];
    assert two[..1][..0] == [] && two[..1][0];
    assert In(two[..1]) == 1;
    assert In(two) >= 1;
    BackedByTotals("2", 3, true, two);
    assert After("2", 3, true, two) == Passed;
    assert votes == two + votes[2..];
    Sticky("2", 3, true, two, votes[2..]);
  }

  /** The coded threshold of type 2 against "two thirds or more agree": a ballot passes with fewer
      than that exactly when n is at least 2. */
  lemma BelowTwoThirds(n: nat)
    requires n >= 1
    ensures n >= 2 <==> exists votes :: Ballot(n, false, votes) && 3 * In(votes) < 2 * n && After("2", n, false, votes) == Passed
  {
    if n >= 2 {
      var yes := (n + 2) / 3;
      AgreeFirst(n, false, yes, n - yes);
      var votes := Repeat(true, yes) + Repeat(false, n - yes);
      assert Ballot(n, false, votes);
    } else {
      forall votes | Ballot(n, false, votes) && After("2", n, false, votes) == Passed
        ensures 3 * In(votes) >= 2 * n
      {
        BackedByTotals("2", n, false, votes);
      }
    }
  }
}
