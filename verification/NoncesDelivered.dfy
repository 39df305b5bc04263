/** Both ends of a keypair together: the nonces that one end gives to its
    packets and the window through which the other end lets them. */
module NoncesDelivered {
  import opened Words
  import opened Wrappers
  import Sending = SendingNonces
  import opened ReplayWindow

  /** Packets by number, of those whose nonces are in sent, in the order in which they arrive */
  ghost predicate Arrives(sent: seq<nat>, order: seq<nat>, arrivals: seq<u64>) {
    && |arrivals| == |order|
    && forall i :: 0 <= i < |order| ==> order[i] < |sent| && arrivals[i] as nat == sent[order[i]]
  }

  /** Arrival number i is not the first of its packet to be accepted. */
  ghost predicate Before(order: seq<nat>, verdicts: seq<bool>, i: nat)
    requires i < |order| == |verdicts|
  {
    exists j :: 0 <= j < i && verdicts[j] && order[j] == order[i]
  }

  lemma {:induction false} AcceptedIsBefore(sent: seq<nat>, order: seq<nat>, arrivals: seq<u64>,
                                            verdicts: seq<bool>, i: nat)
    requires Distinct(sent) && Arrives(sent, order, arrivals) && i < |order| == |verdicts|
    ensures arrivals[i] as nat in AcceptedOf(arrivals[..i], verdicts[..i]) <==> Before(order, verdicts, i)
  {
    if arrivals[i] as nat in AcceptedOf(arrivals[..i], verdicts[..i]) {
      var j :| 0 <= j < i && verdicts[..i][j] && arrivals[..i][j] as nat == arrivals[i] as nat;
      assert sent[order[j]] == sent[order[i]];
      assert verdicts[j] && order[j] == order[i];
    }
    if j :| 0 <= j < i && verdicts[j] && order[j] == order[i] {
      AcceptedAt(arrivals, verdicts, j, i);
    }
  }

  /** Whatever a run with at most 8130 callers at a time sends, delivered in any
      order and any number of times: a packet is accepted exactly if it is not
      behind the window and has not been accepted before. So none is accepted
      twice, and none is refused because of another one. */
  method Deliver(ghost run: seq<Sending.Action>, ghost limit: nat, ghost order: seq<nat>, arrivals: seq<u64>)
    returns (verdicts: seq<bool>, ghost highest: seq<nat>)
    requires limit <= Sending.TWO_64 - Sending.REJECT_AFTER_MESSAGES
    requires Sending.Possible(Sending.Init(), run, limit) && Arrives(Sending.After(Sending.Init(), run).sent, order, arrivals)
    ensures |verdicts| == |highest| == |order|
    ensures forall i :: 0 <= i < |order| ==>
      && IsHighest(AcceptedOf(arrivals[..i], verdicts[..i]), highest[i])
      && (verdicts[i] <==>
            && highest[i] <= Sending.After(Sending.Init(), run).sent[order[i]] + 1 + COUNTER_WINDOW_SIZE as nat
            && !Before(order, verdicts, i))
    ensures forall i, j :: 0 <= i < j < |order| && order[i] == order[j] ==> !(verdicts[i] && verdicts[j])
  {
    Sending.NoncesUnique(run, limit);
    ghost var sent := Sending.After(Sending.Init(), run).sent;
    verdicts, highest := DeliverAll(arrivals);
    hide Sending.Possible, Sending.After, Distinct, IsHighest, AcceptedOf;
    forall i | 0 <= i < |order|
      ensures IsHighest(AcceptedOf(arrivals[..i], verdicts[..i]), highest[i])
      ensures verdicts[i] <==>
        highest[i] <= sent[order[i]] + 1 + COUNTER_WINDOW_SIZE as nat && !Before(order, verdicts, i)
    {
      assert JudgedAt(arrivals, verdicts, highest, i);
      AcceptedIsBefore(sent, order, arrivals, verdicts, i);
      assert sent[order[i]] in sent;
    }
  }
}
