/** The car-park buyer's strategy: the round state it stores (the ids of the
    sellers sent a CFP, and the proposals received back), the policy it
    inherits from the generic buyer, and the choice of the cheapest proposal. */
module CarparkStrategy {
  import opened FipaTypes

  /** One buffered proposal: who sent it, the message itself, and the decision
      taken on it so far (None while undecided). */
  datatype ProposalRecord = ProposalRecord(sender: AgentId, message: ProposeMessage, decision: Option<Performative>)

  /** The generic buyer's policy, whose definitions are outside this model:
      whether a proposal is acceptable and affordable, which of the agents a
      search found are worth a CFP, and the terms to attach to an accepted
      proposal. */
  datatype BuyerPolicy = BuyerPolicy(
    isAcceptableProposal: Description -> bool,
    isAffordableProposal: Description -> bool,
    acceptableCounterparties: seq<AgentId> -> seq<AgentId>,
    termsFromProposal: (Description, AgentId) -> Terms)

  function Price(r: ProposalRecord): int
  {
    r.message.proposal.price
  }

  class Strategy {
    const policy: BuyerPolicy
    const isStopSearchingOnResult: bool
    const proposalCheckInterval: int
    var isSearching: bool
    var waitingForProposals: bool
    var receivedProposals: seq<ProposalRecord>
    var sentProposals: seq<AgentId>

    /** A new strategy starts a round with nothing sent and nothing received;
        the flags and settings come from the generic buyer's configuration. */
    constructor (policy: BuyerPolicy, isStopSearchingOnResult: bool, proposalCheckInterval: int,
                 isSearching: bool, waitingForProposals: bool)
      ensures receivedProposals == [] && sentProposals == []
      ensures this.policy == policy && this.isStopSearchingOnResult == isStopSearchingOnResult
      ensures this.proposalCheckInterval == proposalCheckInterval
      ensures this.isSearching == isSearching && this.waitingForProposals == waitingForProposals
    {
      this.policy := policy;
      this.isStopSearchingOnResult := isStopSearchingOnResult;
      this.proposalCheckInterval := proposalCheckInterval;
      this.isSearching := isSearching;
      this.waitingForProposals := waitingForProposals;
      receivedProposals := [];
      sentProposals := [];
    }

    /** The setter replaces the stored list; a later read returns it as set. */
    method SetReceivedProposals(proposals: seq<ProposalRecord>)
      modifies this`receivedProposals
      ensures receivedProposals == proposals
    {
      receivedProposals := proposals;
    }

    method SetSentProposals(proposals: seq<AgentId>)
      modifies this`sentProposals
      ensures sentProposals == proposals
    {
      sentProposals := proposals;
    }
  }

  // ---------------------------------------------------------------------------
  // The cheapest proposal: a stable ascending sort by price, then its head.

  predicate SortedByPrice(s: seq<ProposalRecord>)
  {
    forall i, j :: 0 <= i < j < |s| ==> Price(s[i]) <= Price(s[j])
  }

  /** Inserts x before the first element that is not cheaper than it, so x
      stays ahead of the equally priced elements that followed it. */
  function Insert(x: ProposalRecord, s: seq<ProposalRecord>): seq<ProposalRecord>
  {
    if s == [] || Price(x) <= Price(s[0]) then [x] + s else [s[0]] + Insert(x, s[1..])
  }

  /** Python's sorted(..., key=price): stable, ascending. */
  function SortByPrice(s: seq<ProposalRecord>): seq<ProposalRecord>
  {
    if s == [] then [] else Insert(s[0], SortByPrice(s[1..]))
  }

  lemma {:induction false} InsertIsPermutation(x: ProposalRecord, s: seq<ProposalRecord>)
    ensures multiset(Insert(x, s)) == multiset{x} + multiset(s)
  {
    if s != [] && Price(x) > Price(s[0]) {
      InsertIsPermutation(x, s[1..]);
      assert s == [s[0]] + s[1..];
    }
  }

  lemma {:induction false} SortByPriceIsPermutation(s: seq<ProposalRecord>)
    ensures multiset(SortByPrice(s)) == multiset(s)
  {
    if s != [] {
      SortByPriceIsPermutation(s[1..]);
      InsertIsPermutation(s[0], SortByPrice(s[1..]));
      assert s == [s[0]] + s[1..];
    }
  }

  lemma {:induction false} InsertKeepsSorted(x: ProposalRecord, s: seq<ProposalRecord>)
    requires SortedByPrice(s)
    ensures SortedByPrice(Insert(x, s))
  {
    if s != [] && Price(x) > Price(s[0]) {
      InsertKeepsSorted(x, s[1..]);
      InsertIsPermutation(x, s[1..]);
      var t := Insert(x, s[1..]);
      forall k | 0 <= k < |t| ensures Price(s[0]) <= Price(t[k]) {
        assert t[k] in multiset(t);
        assert t[k] == x || t[k] in multiset(s[1..]);
      }
    }
  }

  lemma {:induction false} SortByPriceIsSorted(s: seq<ProposalRecord>)
    ensures SortedByPrice(SortByPrice(s))
  {
    if s != [] {
      SortByPriceIsSorted(s[1..]);
      InsertKeepsSorted(s[0], SortByPrice(s[1..]));
    }
  }

  /** rs[k] is the earliest of the cheapest elements of rs. */
  predicate IsFirstCheapest(rs: seq<ProposalRecord>, k: int)
  {
    0 <= k < |rs| &&
    (forall j :: 0 <= j < |rs| ==> Price(rs[k]) <= Price(rs[j])) &&
    (forall j :: 0 <= j < k ==> Price(rs[j]) > Price(rs[k]))
  }

  /** Where the earliest cheapest element of rs lies, given that of its tail. */
  lemma FirstCheapestCons(rs: seq<ProposalRecord>, k: int)
    requires |rs| >= 2 && IsFirstCheapest(rs[1..], k)
    ensures Price(rs[0]) <= Price(rs[k + 1]) ==> IsFirstCheapest(rs, 0)
    ensures Price(rs[0]) > Price(rs[k + 1]) ==> IsFirstCheapest(rs, k + 1)
  {
  }

  /** The head of the stable sort is the earliest cheapest element. */
  lemma {:induction false} SortHeadIsFirstCheapest(rs: seq<ProposalRecord>)
    requires rs != []
    ensures |SortByPrice(rs)| == |rs|
    ensures exists k :: IsFirstCheapest(rs, k) && rs[k] == SortByPrice(rs)[0]
  {
    SortByPriceIsPermutation(rs);
    assert |multiset(SortByPrice(rs))| == |multiset(rs)|;
    if |rs| == 1 {
      assert IsFirstCheapest(rs, 0);
    } else {
      var tail := rs[1..];
      SortHeadIsFirstCheapest(tail);
      var k :| IsFirstCheapest(tail, k) && tail[k] == SortByPrice(tail)[0];
      FirstCheapestCons(rs, k);
      if Price(rs[0]) <= Price(rs[k + 1]) {
        assert SortByPrice(rs)[0] == rs[0];
      } else {
        assert SortByPrice(rs)[0] == rs[k + 1];
      }
    }
  }

  /** get_cheapest_proposal: the head of the list sorted by ascending price.
      An empty list has no head, so callers must pass a non-empty one. */
  function CheapestProposal(rs: seq<ProposalRecord>): (r: ProposalRecord)
    requires rs != []
    ensures r in rs
    ensures forall x :: x in rs ==> Price(r) <= Price(x)
    ensures exists k :: IsFirstCheapest(rs, k) && rs[k] == r
  {
    SortHeadIsFirstCheapest(rs);
    SortByPrice(rs)[0]
  }
}
