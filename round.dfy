/** One negotiation round of the car-park buyer, the part that the FIPA handler
    and the proposal-check behaviour share: the decision pass over the
    buffered proposals and the fan-out of the ACCEPT/DECLINE replies. */
module ProposalRound {
  import opened FipaTypes
  import opened CarparkStrategy

  /** The skill's context: its strategy and the outbox it hands messages to. */
  class SkillContext {
    const strategy: Strategy
    var outbox: seq<Outgoing>

    constructor (strategy: Strategy)
      ensures this.strategy == strategy && outbox == []
    {
      this.strategy := strategy;
      outbox := [];
    }
  }

  // ---------------------------------------------------------------------------
  // Specification of the decision pass.

  /** Every two undecided records of rs appear in u in the order they have in rs. */
  predicate KeepsOrder(rs: seq<ProposalRecord>, u: seq<ProposalRecord>)
  {
    forall j, i :: 0 <= j < i < |rs| && rs[j].decision == None && rs[i].decision == None ==>
      exists p, q :: 0 <= p < q < |u| && u[p] == rs[j] && u[q] == rs[i]
  }

  lemma ConsKeepsOrder(rs: seq<ProposalRecord>, t: seq<ProposalRecord>)
    requires rs != [] && rs[0].decision == None
    requires forall k :: 1 <= k < |rs| && rs[k].decision == None ==> rs[k] in t
    requires KeepsOrder(rs[1..], t)
    ensures KeepsOrder(rs, [rs[0]] + t)
  {
    var u := [rs[0]] + t;
    forall j, i | 0 <= j < i < |rs| && rs[j].decision == None && rs[i].decision == None
      ensures exists p, q :: 0 <= p < q < |u| && u[p] == rs[j] && u[q] == rs[i]
    {
      if j == 0 {
        assert rs[i] in t;
        var q :| 0 <= q < |t| && t[q] == rs[i];
        assert u[0] == rs[j] && u[q + 1] == rs[i];
      } else {
        var tail := rs[1..];
        assert tail[j - 1] == rs[j] && tail[i - 1] == rs[i];
        assert tail[j - 1].decision == None && tail[i - 1].decision == None;
        var p, q :| 0 <= p < q < |t| && t[p] == tail[j - 1] && t[q] == tail[i - 1];
        assert u[p + 1] == t[p] && u[q + 1] == t[q];
      }
    }
  }

  lemma SkipKeepsOrder(rs: seq<ProposalRecord>, t: seq<ProposalRecord>)
    requires rs != [] && rs[0].decision != None
    requires KeepsOrder(rs[1..], t)
    ensures KeepsOrder(rs, t)
  {
  }

  /** The undecided records, in their original order (Python's list(filter(...))). */
  function UndecidedProposals(rs: seq<ProposalRecord>): (u: seq<ProposalRecord>)
    ensures |u| <= |rs|
    ensures forall r :: r in u <==> r in rs && r.decision == None
    ensures DistinctSenders(rs) ==> DistinctSenders(u)
  {
    if rs == [] then []
    else if rs[0].decision == None then [rs[0]] + UndecidedProposals(rs[1..])
    else UndecidedProposals(rs[1..])
  }

  /** The filter keeps the undecided records in the order they were received. */
  lemma {:induction false} UndecidedKeepsOrder(rs: seq<ProposalRecord>)
    ensures KeepsOrder(rs, UndecidedProposals(rs))
  {
    if rs != [] {
      UndecidedKeepsOrder(rs[1..]);
      if rs[0].decision == None {
        ConsKeepsOrder(rs, UndecidedProposals(rs[1..]));
      } else {
        SkipKeepsOrder(rs, UndecidedProposals(rs[1..]));
      }
    }
  }

  /** The decision an undecided record gets once the winning sender is known. */
  function Settle(r: ProposalRecord, winner: AgentId): ProposalRecord
  {
    if r.decision == None then r.(decision := Some(if r.sender == winner then Accept else Decline)) else r
  }

  /** The decision pass: when some record is undecided, every undecided record
      whose sender is the sender of the cheapest undecided proposal is
      accepted and every other undecided record is declined; records that
      already carry a decision keep it. */
  function Decide(rs: seq<ProposalRecord>): (d: seq<ProposalRecord>)
    ensures |d| == |rs|
    ensures forall i :: 0 <= i < |rs| ==> d[i].sender == rs[i].sender && d[i].message == rs[i].message
    ensures forall i :: 0 <= i < |rs| && rs[i].decision != None ==> d[i] == rs[i]
    ensures forall i :: 0 <= i < |rs| ==> d[i].decision != None
    ensures forall i :: 0 <= i < |rs| && rs[i].decision == None ==>
      d[i].decision == Some(if rs[i].sender == CheapestProposal(UndecidedProposals(rs)).sender then Accept else Decline)
  {
    var pending := UndecidedProposals(rs);
    if pending == [] then rs
    else
      var winner := CheapestProposal(pending).sender;
      seq(|rs|, i requires 0 <= i < |rs| => Settle(rs[i], winner))
  }

  /** Records as the FIPA handler buffers them: undecided or pre-declined. */
  predicate Buffered(rs: seq<ProposalRecord>)
  {
    forall i :: 0 <= i < |rs| ==> rs[i].decision == None || rs[i].decision == Some(Decline)
  }

  predicate DistinctSenders(rs: seq<ProposalRecord>)
  {
    forall i, j :: 0 <= i < j < |rs| ==> rs[i].sender != rs[j].sender
  }

  predicate AllDecided(rs: seq<ProposalRecord>)
  {
    forall i :: 0 <= i < |rs| ==> rs[i].decision != None
  }

  /** The number of records whose decision is p. */
  function CountDecision(rs: seq<ProposalRecord>, p: Performative): nat
  {
    if rs == [] then 0
    else (if rs[0].decision == Some(p) then 1 else 0) + CountDecision(rs[1..], p)
  }

  lemma {:induction false} CountZero(rs: seq<ProposalRecord>, p: Performative)
    requires forall i :: 0 <= i < |rs| ==> rs[i].decision != Some(p)
    ensures CountDecision(rs, p) == 0
  {
    if rs != [] {
      CountZero(rs[1..], p);
    }
  }

  lemma {:induction false} CountPositive(rs: seq<ProposalRecord>, p: Performative, k: int)
    requires 0 <= k < |rs| && rs[k].decision == Some(p)
    ensures CountDecision(rs, p) >= 1
  {
    if k > 0 {
      CountPositive(rs[1..], p, k - 1);
    }
  }

  /** If every record with decision p has the same sender and senders are
      distinct, at most one record has decision p. */
  lemma {:induction false} CountAtMostOne(rs: seq<ProposalRecord>, p: Performative, s: AgentId)
    requires DistinctSenders(rs)
    requires forall i :: 0 <= i < |rs| && rs[i].decision == Some(p) ==> rs[i].sender == s
    ensures CountDecision(rs, p) <= 1
  {
    if rs != [] {
      if rs[0].decision == Some(p) {
        CountZero(rs[1..], p);
      } else {
        CountAtMostOne(rs[1..], p, s);
      }
    }
  }

  /** When every record is accepted or declined, the two counts add up to the
      number of records. */
  lemma {:induction false} CountSplit(rs: seq<ProposalRecord>)
    requires forall i :: 0 <= i < |rs| ==> rs[i].decision == Some(Accept) || rs[i].decision == Some(Decline)
    ensures CountDecision(rs, Accept) + CountDecision(rs, Decline) == |rs|
  {
    if rs != [] {
      CountSplit(rs[1..]);
    }
  }

  /** After the pass every buffered record is accepted or declined: the accept
      and decline counts together cover the round. */
  lemma DecideConserves(rs: seq<ProposalRecord>)
    requires Buffered(rs)
    ensures CountDecision(Decide(rs), Accept) + CountDecision(Decide(rs), Decline) == |rs|
  {
    CountSplit(Decide(rs));
  }

  /** With distinct senders, a round has exactly one ACCEPT when some proposal
      was still undecided, and none when every proposal was pre-declined. */
  lemma AcceptCount(rs: seq<ProposalRecord>)
    requires Buffered(rs) && DistinctSenders(rs)
    ensures CountDecision(Decide(rs), Accept) == if UndecidedProposals(rs) == [] then 0 else 1
  {
    var d := Decide(rs);
    var pending := UndecidedProposals(rs);
    if pending == [] {
      forall i | 0 <= i < |rs| ensures d[i].decision != Some(Accept) {
        assert rs[i] !in pending;
      }
      CountZero(d, Accept);
    } else {
      var c := CheapestProposal(pending);
      forall i | 0 <= i < |d| && d[i].decision == Some(Accept) ensures d[i].sender == c.sender {
      }
      assert DistinctSenders(d);
      CountAtMostOne(d, Accept, c.sender);
      var m :| 0 <= m < |rs| && rs[m] == c;
      CountPositive(d, Accept, m);
    }
  }

  /** When every proposal was pre-declined, nobody is accepted and every
      record ends declined. */
  lemma NoPendingNoWinner(rs: seq<ProposalRecord>)
    requires Buffered(rs)
    requires UndecidedProposals(rs) == []
    ensures CountDecision(Decide(rs), Accept) == 0
    ensures CountDecision(Decide(rs), Decline) == |rs|
  {
    forall i | 0 <= i < |rs| ensures Decide(rs)[i].decision == Some(Decline) {
      assert rs[i] !in UndecidedProposals(rs);
    }
    CountZero(Decide(rs), Accept);
    CountSplit(Decide(rs));
  }

  /** With distinct senders, the cheapest undecided proposal is strictly
      cheaper than every undecided record received before it. */
  lemma WinnerIsEarliestCheapest(rs: seq<ProposalRecord>, i: int)
    requires DistinctSenders(rs)
    requires 0 <= i < |rs| && rs[i].decision == None
    requires rs[i] == CheapestProposal(UndecidedProposals(rs))
    ensures forall j :: 0 <= j < i && rs[j].decision == None ==> Price(rs[j]) > Price(rs[i])
  {
    var pending := UndecidedProposals(rs);
    var k :| IsFirstCheapest(pending, k) && pending[k] == rs[i];
    UndecidedKeepsOrder(rs);
    forall j | 0 <= j < i && rs[j].decision == None ensures Price(rs[j]) > Price(rs[i]) {
      var p, q :| 0 <= p < q < |pending| && pending[p] == rs[j] && pending[q] == rs[i];
      assert pending[q].sender == pending[k].sender;
      assert q == k;
    }
  }

  /** With distinct senders, an accepted record was undecided, is the cheapest
      undecided proposal, is priced at most every undecided record, and is
      strictly cheaper than every undecided record received before it: on a
      tie in price the earliest received proposal wins. */
  lemma AcceptedIsCheapestPending(rs: seq<ProposalRecord>)
    requires Buffered(rs) && DistinctSenders(rs)
    ensures forall i :: 0 <= i < |rs| && Decide(rs)[i].decision == Some(Accept) ==>
      rs[i].decision == None && rs[i] == CheapestProposal(UndecidedProposals(rs)) &&
      (forall j :: 0 <= j < |rs| && rs[j].decision == None ==> Price(rs[i]) <= Price(rs[j])) &&
      (forall j :: 0 <= j < i && rs[j].decision == None ==> Price(rs[j]) > Price(rs[i]))
  {
    forall i | 0 <= i < |rs| && Decide(rs)[i].decision == Some(Accept)
      ensures rs[i].decision == None && rs[i] == CheapestProposal(UndecidedProposals(rs))
      ensures forall j :: 0 <= j < |rs| && rs[j].decision == None ==> Price(rs[i]) <= Price(rs[j])
      ensures forall j :: 0 <= j < i && rs[j].decision == None ==> Price(rs[j]) > Price(rs[i])
    {
      var pending := UndecidedProposals(rs);
      assert rs[i] in pending;
      var c := CheapestProposal(pending);
      var m :| 0 <= m < |rs| && rs[m] == c;
      assert m == i;
      forall j | 0 <= j < |rs| && rs[j].decision == None ensures Price(rs[i]) <= Price(rs[j]) {
        assert rs[j] in pending;
      }
      WinnerIsEarliestCheapest(rs, i);
    }
  }

  /** Without distinct senders the pass can accept twice: two undecided
      proposals from the same sender are both accepted, the dearer one too. */
  lemma DuplicateSenderAcceptedTwice(seller: AgentId, attrs: map<string, string>)
    ensures var rs := [ProposalRecord(seller, ProposeMessage(seller, Description(5, attrs)), None),
                       ProposalRecord(seller, ProposeMessage(seller, Description(9, attrs)), None)];
            Decide(rs)[0].decision == Some(Accept) && Decide(rs)[1].decision == Some(Accept) &&
            CountDecision(Decide(rs), Accept) == 2
  {
    var rs := [ProposalRecord(seller, ProposeMessage(seller, Description(5, attrs)), None),
               ProposalRecord(seller, ProposeMessage(seller, Description(9, attrs)), None)];
    var d := Decide(rs);
    assert CountDecision(d[1..][1..], Accept) == 0;
    assert CountDecision(d[1..], Accept) == 1;
  }

  // ---------------------------------------------------------------------------
  // Specification of the reply fan-out.

  /** The reply to one decided record: addressed to the sender of the proposal
      it answers, with the record's decision as performative, and with the
      policy's terms attached to its dialogue only when it is an ACCEPT. */
  function ReplyTo(policy: BuyerPolicy, r: ProposalRecord): Outgoing
    requires r.decision != None
  {
    Outgoing(r.message.sender, r.decision.value,
             if r.decision == Some(Accept) then Some(policy.termsFromProposal(r.message.proposal, r.sender)) else None)
  }

  function Replies(policy: BuyerPolicy, rs: seq<ProposalRecord>): seq<Outgoing>
    requires AllDecided(rs)
  {
    if rs == [] then [] else [ReplyTo(policy, rs[0])] + Replies(policy, rs[1..])
  }

  lemma {:induction false} RepliesAppend(policy: BuyerPolicy, rs: seq<ProposalRecord>, r: ProposalRecord)
    requires AllDecided(rs) && r.decision != None
    ensures AllDecided(rs + [r])
    ensures Replies(policy, rs + [r]) == Replies(policy, rs) + [ReplyTo(policy, r)]
  {
    if rs != [] {
      assert (rs + [r])[1..] == rs[1..] + [r];
      RepliesAppend(policy, rs[1..], r);
    }
  }

  /** One reply per record, in list order, carrying the record's decision,
      with terms exactly on the ACCEPTs. */
  lemma {:induction false} RepliesFollowRecords(policy: BuyerPolicy, rs: seq<ProposalRecord>)
    requires AllDecided(rs)
    ensures |Replies(policy, rs)| == |rs|
    ensures forall i :: 0 <= i < |rs| ==>
      Replies(policy, rs)[i].to == rs[i].message.sender &&
      Some(Replies(policy, rs)[i].performative) == rs[i].decision &&
      (Replies(policy, rs)[i].terms.Some? <==> rs[i].decision == Some(Accept)) &&
      (rs[i].decision == Some(Accept) ==>
         Replies(policy, rs)[i].terms == Some(policy.termsFromProposal(rs[i].message.proposal, rs[i].sender)))
  {
    if rs != [] {
      RepliesFollowRecords(policy, rs[1..]);
    }
  }

  // ---------------------------------------------------------------------------
  // The shared imperative steps.

  /** The decision pass, run in place on the strategy's received proposals. */
  method DecideProposals(strategy: Strategy)
    modifies strategy`receivedProposals
    ensures strategy.receivedProposals == Decide(old(strategy.receivedProposals))
  {
    var undecided := UndecidedProposals(strategy.receivedProposals);
    if undecided != [] {
      var cheapest := CheapestProposal(undecided);
      var i := 0;
      while i < |strategy.receivedProposals|
        invariant 0 <= i <= |strategy.receivedProposals| == |old(strategy.receivedProposals)|
        invariant forall k :: 0 <= k < i ==>
          strategy.receivedProposals[k] == Settle(old(strategy.receivedProposals)[k], cheapest.sender)
        invariant forall k :: i <= k < |strategy.receivedProposals| ==>
          strategy.receivedProposals[k] == old(strategy.receivedProposals)[k]
      {
        var carpark := strategy.receivedProposals[i];
        if carpark.decision == None {
          var decision := if cheapest.sender == carpark.sender then Accept else Decline;
          strategy.receivedProposals := strategy.receivedProposals[i := carpark.(decision := Some(decision))];
        }
        i := i + 1;
      }
    }
  }

  /** Sends one reply per received record, then clears both round lists. */
  method SendReplies(context: SkillContext)
    requires AllDecided(context.strategy.receivedProposals)
    modifies context`outbox, context.strategy`receivedProposals, context.strategy`sentProposals
    ensures context.outbox == old(context.outbox) + Replies(context.strategy.policy, old(context.strategy.receivedProposals))
    ensures context.strategy.receivedProposals == [] && context.strategy.sentProposals == []
  {
    var strategy := context.strategy;
    var received := strategy.receivedProposals;
    var i := 0;
    while i < |received|
      invariant 0 <= i <= |received|
      invariant AllDecided(received[..i])
      invariant context.outbox == old(context.outbox) + Replies(strategy.policy, received[..i])
    {
      var carpark := received[i];
      RepliesAppend(strategy.policy, received[..i], carpark);
      assert received[..i + 1] == received[..i] + [carpark];
      var terms := None;
      if carpark.decision == Some(Accept) {
        terms := Some(strategy.policy.termsFromProposal(carpark.message.proposal, carpark.sender));
      }
      context.outbox := context.outbox + [Outgoing(carpark.message.sender, carpark.decision.value, terms)];
      i := i + 1;
    }
    assert received[..i] == received;
    strategy.SetReceivedProposals([]);
    strategy.SetSentProposals([]);
  }
}
