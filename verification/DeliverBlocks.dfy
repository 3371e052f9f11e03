/** The loop that takes blocks from the ordering service and hands them to the gossip layer. */
module DeliverBlocks {
  import opened Common

  const WRONG_STATUS_THRESHOLD: nat := 10
  const MAX_RETRY_DELAY: nat := 10000   // milliseconds

  datatype Response =
    | ReceiveError
    | Success
    | Refused                  // BAD_REQUEST or FORBIDDEN
    | OtherStatus
    | Block(number: nat, data: string, serialises: bool, verifies: bool)
    | Unknown

  datatype Payload = Payload(number: nat, data: string)

  /** Why the loop is left: the provider has been stopped, a response ended it, or it still waits
      for the next response. */
  datatype Exit = Stopped | Ended | Waiting

  // ---------------------------------------------------------------- what the loop should do

  predicate Status(r: Response) { r.Refused? || r.OtherStatus? }

  /** How many of the first n responses at their end are refusals. */
  function Refusals(rs: seq<Response>, n: nat): (k: nat)
    requires n <= |rs|
    ensures k <= n
  {
    if n == 0 || !rs[n - 1].Refused? then 0 else Refusals(rs, n - 1) + 1
  }

  /** How many at their end are statuses, that is, come after the last block. */
  function Statuses(rs: seq<Response>, n: nat): (k: nat)
    requires n <= |rs|
    ensures k <= n
  {
    if n == 0 || !Status(rs[n - 1]) then 0 else Statuses(rs, n - 1) + 1
  }

  /** The i-th response ends the loop. */
  predicate Ends(rs: seq<Response>, i: nat)
    requires i < |rs|
  {
    rs[i].ReceiveError? || rs[i].Success? || rs[i].Unknown? || Refusals(rs, i + 1) > WRONG_STATUS_THRESHOLD
  }

  /** The blocks among the first n responses that serialise and verify. */
  function Good(rs: seq<Response>, n: nat): seq<Payload>
    requires n <= |rs|
  {
    if n == 0 then []
    else
      var r := rs[n - 1];
      Good(rs, n - 1) + if r.Block? && r.serialises && r.verifies then [Payload(r.number, r.data)] else []
  }

  function Pow2(n: nat): nat { if n == 0 then 1 else 2 * Pow2(n - 1) }

  /** The pause after a status that follows k others: 100 ms, doubled each time, at most 10 s. */
  function Delay(k: nat): nat { Min(MAX_RETRY_DELAY, Pow2(k) * 100) }

  function Delays(rs: seq<Response>, n: nat): seq<nat>
    requires n <= |rs|
  {
    if n == 0 then []
    else Delays(rs, n - 1) + if Status(rs[n - 1]) then [Delay(Statuses(rs, n - 1))] else []
  }

  // ---------------------------------------------------------------- the loop

  /** rs are the responses the ordering service sends, and Stop takes effect when the loop is about
      to receive for the time numbered stop. n responses are handled without ending the loop; after
      each pause the client disconnects. */
  method Deliver(rs: seq<Response>, stop: nat)
    returns (n: nat, exit: Exit, added: seq<Payload>, gossiped: seq<Payload>, delays: seq<nat>, disconnects: nat)
    ensures n <= |rs| && n <= stop
    ensures forall i :: 0 <= i < n ==> !Ends(rs, i)
    ensures exit == if n == stop then Stopped else if n == |rs| then Waiting else Ended
    ensures exit == Ended ==> Ends(rs, n)
    ensures added == Good(rs, n) && gossiped == added
    ensures delays == Delays(rs, n) && disconnects == |delays|
  {
    var errorStatusCounter, statusCounter := 0, 0;
    n, added, gossiped, delays, disconnects := 0, [], [], [], 0;
    while n < |rs|
      invariant n <= |rs| && n <= stop
      invariant errorStatusCounter == Refusals(rs, n) <= WRONG_STATUS_THRESHOLD
      invariant statusCounter == Min(7, Statuses(rs, n))
      invariant forall i :: 0 <= i < n ==> !Ends(rs, i)
      invariant added == Good(rs, n) && gossiped == added
      invariant delays == Delays(rs, n) && disconnects == |delays|
    {
      if n == stop {
        return n, Stopped, added, gossiped, delays, disconnects;
      }
      var msg := rs[n];
      match msg {
        case ReceiveError => return n, Ended, added, gossiped, delays, disconnects;
        case Success => return n, Ended, added, gossiped, delays, disconnects;
        case Unknown => return n, Ended, added, gossiped, delays, disconnects;
        case Block(number, data, serialises, verifies) =>
          errorStatusCounter, statusCounter := 0, 0;
          if serialises && verifies {
            var payload := Payload(number, data);
            added := added + [payload];
            gossiped := gossiped + [payload];
          }
        case _ =>
          if msg.Refused? {
            errorStatusCounter := errorStatusCounter + 1;
            if errorStatusCounter > WRONG_STATUS_THRESHOLD {
              return n, Ended, added, gossiped, delays, disconnects;
            }
          } else {
            errorStatusCounter := 0;
          }
          DelayGrows(Statuses(rs, n));
          var currDelay := Pow2(statusCounter) * 100;
          delays := delays + [Min(MAX_RETRY_DELAY, currDelay)];
          if currDelay < MAX_RETRY_DELAY {
            statusCounter := statusCounter + 1;
          }
          disconnects := disconnects + 1;
      }
      n := n + 1;
    }
    return n, if n == stop then Stopped else Waiting, added, gossiped, delays, disconnects;
  }

  lemma {:induction false} Pow2Grows(k: nat)
    ensures k >= 7 ==> Pow2(k) >= 128
    ensures k < 7 ==> Pow2(k) <= 64
  {
    if k > 0 {
      Pow2Grows(k - 1);
    }
    assert Pow2(6) == 64 && Pow2(7) == 128;
  }

  /** The counter stops at 7, and the pauses do not notice. */
  lemma DelayGrows(k: nat)
    ensures Delay(Min(7, k)) == Delay(k)
    ensures Pow2(Min(7, k)) * 100 < MAX_RETRY_DELAY <==> k < 7
  {
    Pow2Grows(k);
    Pow2Grows(7);
  }

  // ---------------------------------------------------------------- consequences

  /** The count of refusals reaches k exactly when the last k responses are refusals. */
  lemma {:induction false} RefusalsExact(rs: seq<Response>, n: nat, k: nat)
    requires n <= |rs|
    ensures Refusals(rs, n) >= k <==> k <= n && forall j :: n - k <= j < n ==> rs[j].Refused?
  {
    if n > 0 && k > 0 {
      if rs[n - 1].Refused? {
        RefusalsExact(rs, n - 1, k - 1);
      }
    }
  }

  /** A response that is neither an error nor a success nor unknown ends the loop exactly when it is
      the eleventh refusal in a row. */
  lemma EleventhRefusal(rs: seq<Response>, i: nat)
    requires i < |rs| && (Status(rs[i]) || rs[i].Block?)
    ensures Ends(rs, i) <==> i >= 10 && forall j :: i - 10 <= j <= i ==> rs[j].Refused?
  {
    RefusalsExact(rs, i + 1, 11);
  }

  lemma {:induction false} DelaysBounded(rs: seq<Response>, n: nat)
    requires n <= |rs|
    ensures forall i :: 0 <= i < |Delays(rs, n)| ==> 100 <= Delays(rs, n)[i] <= MAX_RETRY_DELAY
  {
    if n > 0 {
      DelaysBounded(rs, n - 1);
      PowPositive(Statuses(rs, n - 1));
    }
  }

  lemma {:induction false} PowPositive(k: nat)
    ensures Pow2(k) >= 1
  {
    if k > 0 {
      PowPositive(k - 1);
    }
  }

  predicate GoodBlock(r: Response) { r.Block? && r.serialises && r.verifies }

  /** Where the good blocks are among the responses. */
  function Positions(rs: seq<Response>, n: nat): seq<nat>
    requires n <= |rs|
  {
    if n == 0 then [] else Positions(rs, n - 1) + if GoodBlock(rs[n - 1]) then [n - 1] else []
  }

  /** The payloads handed on are the good blocks received, each once and in the order received. */
  lemma {:induction false} GoodInOrder(rs: seq<Response>, n: nat)
    requires n <= |rs|
    ensures var ps, g := Positions(rs, n), Good(rs, n);
      && |ps| == |g|
      && (forall k :: 0 <= k < |ps| ==>
           ps[k] < n && GoodBlock(rs[ps[k]]) && g[k] == Payload(rs[ps[k]].number, rs[ps[k]].data))
      && (forall k, l :: 0 <= k < l < |ps| ==> ps[k] < ps[l])
      && (forall i :: 0 <= i < n && GoodBlock(rs[i]) ==> i in ps)
  {
    if n > 0 {
      GoodInOrder(rs, n - 1);
    }
  }

  /** All responses that are neither a status nor a block end the loop at once. */
  lemma OthersEnd(rs: seq<Response>, i: nat)
    requires i < |rs|
    ensures rs[i].ReceiveError? || rs[i].Success? || rs[i].Unknown? ==> Ends(rs, i)
    ensures Ends(rs, i) ==> !rs[i].Block? && !rs[i].OtherStatus?
  {
  }

  /** The count of statuses reaches k exactly when the last k responses are statuses; so a block begins
      the pauses anew. */
  lemma {:induction false} StatusesExact(rs: seq<Response>, n: nat, k: nat)
    requires n <= |rs|
    ensures Statuses(rs, n) >= k <==> k <= n && forall j :: n - k <= j < n ==> rs[j].Refused? || rs[j].OtherStatus?
  {
    if n > 0 && k > 0 {
      if Status(rs[n - 1]) {
        StatusesExact(rs, n - 1, k - 1);
      }
    }
  }

  /** The first pause after a block or at the beginning is 100 ms, and each further one twice the one
      before, up to 10 s. */
  lemma DelayDoubles(k: nat)
    ensures Delay(0) == 100 && Delay(k + 1) == Min(10000, 2 * Delay(k))
  {
    Pow2Grows(k);
  }

  /** Where the statuses are among the responses. */
  function StatusPositions(rs: seq<Response>, n: nat): seq<nat>
    requires n <= |rs|
  {
    if n == 0 then [] else StatusPositions(rs, n - 1) + if rs[n - 1].Refused? || rs[n - 1].OtherStatus? then [n - 1] else []
  }

  /** There is one pause for each status, in their order, as long as the number of statuses directly
      before it says. */
  lemma {:induction false} PausesInOrder(rs: seq<Response>, n: nat)
    requires n <= |rs|
    ensures var ps, ds := StatusPositions(rs, n), Delays(rs, n);
      && |ps| == |ds|
      && (forall k :: 0 <= k < |ps| ==> ps[k] < n && (rs[ps[k]].Refused? || rs[ps[k]].OtherStatus?) && ds[k] == Delay(Statuses(rs, ps[k])))
      && (forall k, l :: 0 <= k < l < |ps| ==> ps[k] < ps[l])
      && (forall i :: 0 <= i < n && (rs[i].Refused? || rs[i].OtherStatus?) ==> i in ps)
  {
    if n > 0 {
      PausesInOrder(rs, n - 1);
    }
  }
}
