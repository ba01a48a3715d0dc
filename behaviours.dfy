/** The car-park buyer's proposal-check behaviour: a ticker that closes the
    round once every seller sent a CFP has answered, or once it has waited
    for the configured number of ticks. */
module CarparkBehaviours {
  import opened FipaTypes
  import opened CarparkStrategy
  import opened ProposalRound

  /** The senders of the received proposals, in order. */
  function Senders(received: seq<ProposalRecord>): (s: seq<AgentId>)
    ensures |s| == |received|
    ensures forall i :: 0 <= i < |received| ==> s[i] == received[i].sender
  {
    seq(|received|, i requires 0 <= i < |received| => received[i].sender)
  }

  /** Checking the sent ids one by one against the senders is checking that
      the set of sent ids is a subset of the set of senders. */
  lemma SentWithinSenders(sent: seq<AgentId>, received: seq<ProposalRecord>)
    ensures (forall i :: 0 <= i < |sent| ==> sent[i] in Senders(received)) <==>
      (set a | a in sent) <= (set j | 0 <= j < |received| :: received[j].sender)
  {
    var senderSet := set j | 0 <= j < |received| :: received[j].sender;
    forall a | a in Senders(received) ensures a in senderSet {
      var j :| 0 <= j < |Senders(received)| && Senders(received)[j] == a;
      assert received[j].sender == a;
    }
    forall a | a in senderSet ensures a in Senders(received) {
      var j :| 0 <= j < |received| && received[j].sender == a;
      assert Senders(received)[j] == a;
    }
    if (set a | a in sent) <= senderSet {
      forall i | 0 <= i < |sent| ensures sent[i] in Senders(received) {
        assert sent[i] in (set a | a in sent);
      }
    }
  }

  /** Every id a CFP was sent to appears among the senders of the received
      proposals: the set of sent ids is a subset of the set of senders, which
      holds vacuously when nothing was sent. */
  predicate AllReplied(sent: seq<AgentId>, received: seq<ProposalRecord>)
    ensures AllReplied(sent, received) <==>
      (set a | a in sent) <= (set j | 0 <= j < |received| :: received[j].sender)
    ensures sent == [] ==> AllReplied(sent, received)
  {
    SentWithinSenders(sent, received);
    forall i :: 0 <= i < |sent| ==> sent[i] in Senders(received)
  }

  function Max(a: int, b: int): int
  {
    if a < b then b else a
  }

  class ProposalCheckBehaviour {
    const context: SkillContext
    var counter: int

    /** The tick counter never goes below zero nor past the check interval
        (nor past zero when the interval is negative). */
    ghost predicate Valid()
      reads this
    {
      0 <= counter <= Max(0, context.strategy.proposalCheckInterval)
    }

    constructor (context: SkillContext)
      ensures this.context == context && counter == 0 && Valid()
    {
      this.context := context;
      counter := 0;
    }

    /** One tick. Nothing happens while no round is waiting for proposals.
        Otherwise the round is decided and answered when every seller has
        replied or the counter has reached the interval; failing both, the
        counter goes up by one and nothing else changes. */
    method Act()
      requires Valid()
      modifies this`counter, context`outbox, context.strategy`receivedProposals,
               context.strategy`sentProposals, context.strategy`waitingForProposals
      ensures Valid()
      ensures !old(context.strategy.waitingForProposals) ==>
        counter == old(counter) && context.outbox == old(context.outbox) &&
        context.strategy.receivedProposals == old(context.strategy.receivedProposals) &&
        context.strategy.sentProposals == old(context.strategy.sentProposals) &&
        !context.strategy.waitingForProposals
      ensures old(context.strategy.waitingForProposals) &&
              (old(AllReplied(context.strategy.sentProposals, context.strategy.receivedProposals)) ||
               old(counter) > context.strategy.proposalCheckInterval - 1) ==>
        counter == 0 && !context.strategy.waitingForProposals &&
        context.strategy.receivedProposals == [] && context.strategy.sentProposals == [] &&
        context.outbox == old(context.outbox) + Replies(context.strategy.policy, Decide(old(context.strategy.receivedProposals)))
      ensures old(context.strategy.waitingForProposals) &&
              !old(AllReplied(context.strategy.sentProposals, context.strategy.receivedProposals)) &&
              old(counter) <= context.strategy.proposalCheckInterval - 1 ==>
        counter == old(counter) + 1 && context.outbox == old(context.outbox) &&
        context.strategy.receivedProposals == old(context.strategy.receivedProposals) &&
        context.strategy.sentProposals == old(context.strategy.sentProposals) &&
        context.strategy.waitingForProposals
    {
      var strategy := context.strategy;
      if !strategy.waitingForProposals {
        return;
      }
      if AllReplied(strategy.sentProposals, strategy.receivedProposals) {
      } else if counter > strategy.proposalCheckInterval - 1 {
      } else {
        counter := counter + 1;
        return;
      }
      HandleAllProposalsReceived();
    }

    /** Decides the round, then answers it. */
    method HandleAllProposalsReceived()
      modifies this`counter, context`outbox, context.strategy`receivedProposals,
               context.strategy`sentProposals, context.strategy`waitingForProposals
      ensures counter == 0 && Valid() && !context.strategy.waitingForProposals
      ensures context.strategy.receivedProposals == [] && context.strategy.sentProposals == []
      ensures context.outbox == old(context.outbox) + Replies(context.strategy.policy, Decide(old(context.strategy.receivedProposals)))
    {
      DecideProposals(context.strategy);
      AnswerProposals();
    }

    /** Replies to every received proposal with its decision, then resets the
        round: both lists emptied, no longer waiting, counter back to zero. */
    method AnswerProposals()
      requires AllDecided(context.strategy.receivedProposals)
      modifies this`counter, context`outbox, context.strategy`receivedProposals,
               context.strategy`sentProposals, context.strategy`waitingForProposals
      ensures counter == 0 && Valid() && !context.strategy.waitingForProposals
      ensures context.strategy.receivedProposals == [] && context.strategy.sentProposals == []
      ensures context.outbox == old(context.outbox) + Replies(context.strategy.policy, old(context.strategy.receivedProposals))
    {
      SendReplies(context);
      context.strategy.waitingForProposals := false;
      counter := 0;
    }
  }
}
