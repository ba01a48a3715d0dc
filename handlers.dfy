/** The car-park buyer's handlers: the FIPA handler that buffers proposals
    and closes the round once every CFP has been answered, and the search
    handler that turns a search result into CFPs. */
module CarparkHandlers {
  import opened FipaTypes
  import opened CarparkStrategy
  import opened ProposalRound

  /** The record buffered for an incoming proposal: declined on arrival when
      the policy finds it unacceptable or unaffordable, undecided otherwise. */
  function IncomingRecord(policy: BuyerPolicy, msg: ProposeMessage): (r: ProposalRecord)
    ensures r.sender == msg.sender && r.message == msg
    ensures r.decision == Some(Decline) <==>
      !policy.isAcceptableProposal(msg.proposal) || !policy.isAffordableProposal(msg.proposal)
    ensures r.decision == None <==>
      policy.isAcceptableProposal(msg.proposal) && policy.isAffordableProposal(msg.proposal)
  {
    ProposalRecord(msg.sender, msg,
      if !policy.isAcceptableProposal(msg.proposal) || !policy.isAffordableProposal(msg.proposal)
      then Some(Decline) else None)
  }

  class FipaHandler {
    const context: SkillContext

    constructor (context: SkillContext)
      ensures this.context == context
    {
      this.context := context;
    }

    /** Buffers the proposal; when as many proposals have arrived as CFPs were
        sent, decides the round, replies to every proposal and resets the round. */
    method HandlePropose(msg: ProposeMessage)
      modifies context`outbox, context.strategy`receivedProposals, context.strategy`sentProposals
      ensures var record := IncomingRecord(context.strategy.policy, msg);
        var buffered := old(context.strategy.receivedProposals) + [record];
        if |buffered| == |old(context.strategy.sentProposals)| then
          context.strategy.receivedProposals == [] && context.strategy.sentProposals == [] &&
          context.outbox == old(context.outbox) + Replies(context.strategy.policy, Decide(buffered))
        else
          context.strategy.receivedProposals == buffered &&
          context.strategy.sentProposals == old(context.strategy.sentProposals) &&
          context.outbox == old(context.outbox)
      ensures old(|context.strategy.receivedProposals| < |context.strategy.sentProposals|) ==>
        |context.strategy.receivedProposals| <= |context.strategy.sentProposals|
      ensures old(Buffered(context.strategy.receivedProposals)) ==> Buffered(context.strategy.receivedProposals)
    {
      var strategy := context.strategy;
      var record := IncomingRecord(strategy.policy, msg);
      strategy.receivedProposals := strategy.receivedProposals + [record];
      if |strategy.receivedProposals| == |strategy.sentProposals| {
        DecideProposals(strategy);
        HandleProposeSend();
      }
    }

    /** Replies to every buffered proposal with its decision, then empties both
        round lists. */
    method HandleProposeSend()
      requires AllDecided(context.strategy.receivedProposals)
      modifies context`outbox, context.strategy`receivedProposals, context.strategy`sentProposals
      ensures context.outbox == old(context.outbox) + Replies(context.strategy.policy, old(context.strategy.receivedProposals))
      ensures context.strategy.receivedProposals == [] && context.strategy.sentProposals == []
    {
      SendReplies(context);
    }
  }

  /** The CFPs sent to the given counterparties, in order. */
  function Cfps(counterparties: seq<AgentId>): seq<Outgoing>
  {
    if counterparties == [] then [] else [Outgoing(counterparties[0], Cfp, None)] + Cfps(counterparties[1..])
  }

  lemma {:induction false} CfpsAppend(counterparties: seq<AgentId>, c: AgentId)
    ensures Cfps(counterparties + [c]) == Cfps(counterparties) + [Outgoing(c, Cfp, None)]
  {
    if counterparties != [] {
      assert (counterparties + [c])[1..] == counterparties[1..] + [c];
      CfpsAppend(counterparties[1..], c);
    }
  }

  /** Exactly one CFP per counterparty, in order, addressed to it. */
  lemma {:induction false} CfpsFollowCounterparties(counterparties: seq<AgentId>)
    ensures |Cfps(counterparties)| == |counterparties|
    ensures forall i :: 0 <= i < |counterparties| ==> Cfps(counterparties)[i] == Outgoing(counterparties[i], Cfp, None)
  {
    if counterparties != [] {
      CfpsFollowCounterparties(counterparties[1..]);
    }
  }

  class OefSearchHandler {
    const context: SkillContext

    constructor (context: SkillContext)
      ensures this.context == context
    {
      this.context := context;
    }

    /** An empty search result changes nothing. Otherwise searching stops when
        the strategy stops on the first result, and every counterparty the
        policy accepts gets a CFP and is recorded as sent, in order. */
    method HandleSearch(agents: seq<AgentId>)
      modifies context`outbox, context.strategy`sentProposals, context.strategy`isSearching
      ensures agents == [] ==>
        context.outbox == old(context.outbox) &&
        context.strategy.sentProposals == old(context.strategy.sentProposals) &&
        context.strategy.isSearching == old(context.strategy.isSearching)
      ensures agents != [] ==>
        var counterparties := context.strategy.policy.acceptableCounterparties(agents);
        context.strategy.isSearching == (old(context.strategy.isSearching) && !context.strategy.isStopSearchingOnResult) &&
        context.strategy.sentProposals == old(context.strategy.sentProposals) + counterparties &&
        context.outbox == old(context.outbox) + Cfps(counterparties)
    {
      if |agents| == 0 {
        return;
      }
      var strategy := context.strategy;
      if strategy.isStopSearchingOnResult {
        strategy.isSearching := false;
      }
      var counterparties := strategy.policy.acceptableCounterparties(agents);
      var i := 0;
      while i < |counterparties|
        invariant 0 <= i <= |counterparties|
        invariant strategy.isSearching == (old(strategy.isSearching) && !strategy.isStopSearchingOnResult)
        invariant strategy.sentProposals == old(strategy.sentProposals) + counterparties[..i]
        invariant context.outbox == old(context.outbox) + Cfps(counterparties[..i])
      {
        var counterparty := counterparties[i];
        CfpsAppend(counterparties[..i], counterparty);
        assert counterparties[..i + 1] == counterparties[..i] + [counterparty];
        strategy.sentProposals := strategy.sentProposals + [counterparty];
        context.outbox := context.outbox + [Outgoing(counterparty, Cfp, None)];
        i := i + 1;
      }
      assert counterparties[..i] == counterparties;
    }
  }
}
