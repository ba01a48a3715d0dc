/** A worked round: three sellers found, one proposal unaffordable, the
    cheapest affordable one accepted. */
module NegotiationScenario {
  import opened FipaTypes
  import opened CarparkStrategy
  import opened ProposalRound
  import opened CarparkHandlers

  /** The decision pass on a round where Y offers 9, X offers 15 (declined on
      arrival as unaffordable) and Z offers 11: Y is accepted, X keeps its
      decline and Z is declined. */
  lemma CheapestPendingWins(x: AgentId, y: AgentId, z: AgentId, attrs: map<string, string>)
    requires x != y && y != z && x != z
    ensures var rs := [ProposalRecord(y, ProposeMessage(y, Description(9, attrs)), None),
                       ProposalRecord(x, ProposeMessage(x, Description(15, attrs)), Some(Decline)),
                       ProposalRecord(z, ProposeMessage(z, Description(11, attrs)), None)];
            Decide(rs) == [rs[0].(decision := Some(Accept)), rs[1], rs[2].(decision := Some(Decline))]
  {
  }

  /** The round's policy: every proposal is acceptable, and only prices up to
      12 are affordable. */
  function ScenarioPolicy(): BuyerPolicy
  {
    BuyerPolicy((d: Description) => true, (d: Description) => d.price <= 12,
                (agents: seq<AgentId>) => agents, (d: Description, s: AgentId) => Terms(map[]))
  }

  /** The replies of that round: ACCEPT with terms to Y, DECLINE to X and Z. */
  lemma ScenarioReplies(x: AgentId, y: AgentId, z: AgentId, attrs: map<string, string>)
    requires x != y && y != z && x != z
    ensures var rs := [ProposalRecord(y, ProposeMessage(y, Description(9, attrs)), None),
                       ProposalRecord(x, ProposeMessage(x, Description(15, attrs)), Some(Decline)),
                       ProposalRecord(z, ProposeMessage(z, Description(11, attrs)), None)];
            Replies(ScenarioPolicy(), Decide(rs)) ==
              [Outgoing(y, Accept, Some(Terms(map[]))), Outgoing(x, Decline, None), Outgoing(z, Decline, None)]
  {
    var rs := [ProposalRecord(y, ProposeMessage(y, Description(9, attrs)), None),
               ProposalRecord(x, ProposeMessage(x, Description(15, attrs)), Some(Decline)),
               ProposalRecord(z, ProposeMessage(z, Description(11, attrs)), None)];
    CheapestPendingWins(x, y, z, attrs);
    RepliesFollowRecords(ScenarioPolicy(), Decide(rs));
  }

  /** The whole round driven through the handlers. */
  method RunRound(x: AgentId, y: AgentId, z: AgentId, attrs: map<string, string>)
    requires x != y && y != z && x != z
  {
    var strategy := new Strategy(ScenarioPolicy(), false, 3, true, false);
    var context := new SkillContext(strategy);
    var search := new OefSearchHandler(context);
    var fipa := new FipaHandler(context);

    search.HandleSearch([x, y, z]);
    assert strategy.sentProposals == [x, y, z];
    CfpsFollowCounterparties([x, y, z]);
    assert context.outbox == [Outgoing(x, Cfp, None), Outgoing(y, Cfp, None), Outgoing(z, Cfp, None)];

    ReceiveProposals(fipa, x, y, z, attrs);
  }

  /** The three proposals arrive in the order Y, X, Z; the third closes the round. */
  method ReceiveProposals(fipa: FipaHandler, x: AgentId, y: AgentId, z: AgentId, attrs: map<string, string>)
    requires x != y && y != z && x != z
    requires fipa.context.strategy.policy == ScenarioPolicy()
    requires fipa.context.strategy.sentProposals == [x, y, z] && fipa.context.strategy.receivedProposals == []
    modifies fipa.context, fipa.context.strategy
  {
    var context := fipa.context;
    var strategy := context.strategy;
    var policy := ScenarioPolicy();
    var my := ProposeMessage(y, Description(9, attrs));
    var mx := ProposeMessage(x, Description(15, attrs));
    var mz := ProposeMessage(z, Description(11, attrs));
    assert IncomingRecord(policy, my) == ProposalRecord(y, my, None);
    assert IncomingRecord(policy, mx) == ProposalRecord(x, mx, Some(Decline));
    assert IncomingRecord(policy, mz) == ProposalRecord(z, mz, None);
    var rs := [ProposalRecord(y, my, None), ProposalRecord(x, mx, Some(Decline)), ProposalRecord(z, mz, None)];
    var cfps := context.outbox;

    fipa.HandlePropose(my);
    assert strategy.receivedProposals == rs[..1];
    fipa.HandlePropose(mx);
    assert strategy.receivedProposals == rs[..2];
    assert rs[..2] + [IncomingRecord(policy, mz)] == rs;
    fipa.HandlePropose(mz);
    assert context.outbox == cfps + Replies(policy, Decide(rs));
    assert strategy.receivedProposals == [] && strategy.sentProposals == [];

    ScenarioReplies(x, y, z, attrs);
    assert context.outbox == cfps + [Outgoing(y, Accept, Some(Terms(map[]))), Outgoing(x, Decline, None), Outgoing(z, Decline, None)];
  }
}
