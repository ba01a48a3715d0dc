# Car-park buyer: proposal collection and winner selection

This project models the negotiation round of the car-park client skill of an
autonomous economic agent (the `carpark_client` skill of the Fetch.ai AEA
framework), written in Dafny and proved.

The buyer searches the directory service for car-park sellers. It sends a
call for proposals (CFP) to every seller its policy accepts, and records each
as *sent*. Each PROPOSE that comes back is buffered as a *received* record
`{sender, message, decision}`. The decision is set to DECLINE on arrival when
the policy finds the proposal unacceptable or unaffordable, and left undecided
(`None`) otherwise. The round is closed in one of two ways:

- the FIPA handler closes it as soon as the number of received records equals
  the number of sent CFPs;
- the proposal-check ticker closes it when every seller sent a CFP appears
  among the senders of the received records, or when its tick counter reaches
  the configured interval.

Closing a round runs the **decision pass**. It takes the cheapest undecided
proposal (a stable ascending sort by price, then the head). Every undecided
record from that proposal's sender becomes ACCEPT, and every other undecided
record becomes DECLINE. Records that were declined on arrival keep DECLINE.
One reply per record then goes to the outbox, in list order, with the policy's
terms attached only to the ACCEPTs. Finally both lists are emptied.

Files and modules:

- `fipa_types.dfy` (`FipaTypes`): agent ids, performatives, proposal
  descriptions, PROPOSE messages, terms and outbox entries.
- `strategy.dfy` (`CarparkStrategy`): the `Strategy` class with the two round
  lists, the session flags and the policy; the stable sort by price and
  `CheapestProposal`, with the lemmas that the sort is a sorted permutation
  and that its head is the earliest cheapest element.
- `round.dfy` (`ProposalRound`): the specification of the decision pass
  (`Decide`) and of the replies (`Replies`), the lemmas about them, the
  skill context with its outbox, and the two imperative steps that both the
  handler and the ticker call: `DecideProposals` and `SendReplies`.
- `handlers.dfy` (`CarparkHandlers`): `FipaHandler` and `OefSearchHandler`.
- `behaviours.dfy` (`CarparkBehaviours`): `ProposalCheckBehaviour` with its
  tick counter.
- `scenario.dfy` (`NegotiationScenario`): a worked round. Three sellers are
  found. Y offers 9, X offers 15 (unaffordable) and Z offers 11. Y is
  accepted, and X and Z are declined.

The decision pass compares **senders**, not records. So "at most one ACCEPT"
holds only when the received records have distinct senders. `AcceptCount`
and `AcceptedIsCheapestPending` take that as a precondition.
`DuplicateSenderAcceptedTwice` shows the pass accepting two proposals from
one sender, the dearer one included.

## Model

| member | source | states |
|---|---|---|
| `CarparkStrategy.Strategy.constructor` | packages/fetchai/skills/carpark_client/strategy.py:30-34 | a new strategy has empty received and sent lists |
| `CarparkStrategy.Strategy.SetReceivedProposals` | packages/fetchai/skills/carpark_client/strategy.py:51-69 | the setter replaces the stored received list, and a later read returns exactly the list set |
| `CarparkStrategy.Strategy.SetSentProposals` | packages/fetchai/skills/carpark_client/strategy.py:71-85 | the setter replaces the stored sent list, and a later read returns exactly the list set |
| `CarparkStrategy.CheapestProposal` | packages/fetchai/skills/carpark_client/strategy.py:36-49 | needs a non-empty list; returns an element of it whose price is at most every element's price, and the earliest such element in list order |
| `CarparkStrategy.SortHeadIsFirstCheapest` | packages/fetchai/skills/carpark_client/strategy.py:45-49 | the head of the stable ascending sort by price is the earliest element of minimum price |
| `CarparkStrategy.SortByPriceIsPermutation` | packages/fetchai/skills/carpark_client/strategy.py:45-48 | the sort keeps exactly the input's elements (same multiset) |
| `CarparkStrategy.SortByPriceIsSorted` | packages/fetchai/skills/carpark_client/strategy.py:45-48 | the sort's result is in ascending price order |
| `ProposalRound.UndecidedProposals` | packages/fetchai/skills/carpark_client/handlers.py:74-76 | the filtered list holds exactly the received records whose decision is None, is no longer than the received list, and keeps senders distinct when they were distinct |
| `ProposalRound.UndecidedKeepsOrder` | packages/fetchai/skills/carpark_client/handlers.py:74-76 | the filter keeps received order: of two undecided records, the one received earlier also comes earlier in the filtered list (the ticker filters the same way, behaviours.py:78-80) |
| `ProposalRound.Decide` | packages/fetchai/skills/carpark_client/handlers.py:74-85 | the pass keeps length, senders and messages; pre-set decisions are unchanged; each undecided record becomes ACCEPT iff its sender is the cheapest undecided proposal's sender, else DECLINE; no record is left None |
| `ProposalRound.DecideProposals` | packages/fetchai/skills/carpark_client/behaviours.py:78-90 | the in-place loop over the received records leaves them equal to `Decide` of the old list; the FIPA handler (handlers.py:74-85) calls the same method |
| `ProposalRound.DecideConserves` | packages/fetchai/skills/carpark_client/handlers.py:74-85 | after the pass on buffered records, the ACCEPT count plus the DECLINE count equals the number of records |
| `ProposalRound.AcceptCount` | packages/fetchai/skills/carpark_client/handlers.py:77-85 | with distinct senders, the pass yields exactly one ACCEPT when some record was undecided, and none otherwise |
| `ProposalRound.NoPendingNoWinner` | packages/fetchai/skills/carpark_client/handlers.py:77-86 | when every record was pre-declined, the pass accepts nobody and every record ends DECLINE |
| `ProposalRound.WinnerIsEarliestCheapest` | packages/fetchai/skills/carpark_client/handlers.py:78-85 | with distinct senders, the cheapest undecided proposal is strictly cheaper than every undecided record received before it |
| `ProposalRound.AcceptedIsCheapestPending` | packages/fetchai/skills/carpark_client/handlers.py:78-85 | with distinct senders, every accepted record was undecided, is the cheapest undecided proposal itself, is priced at most every undecided record, and is strictly cheaper than every undecided record received before it, so on a tie in price the earliest received proposal wins |
| `ProposalRound.DuplicateSenderAcceptedTwice` | packages/fetchai/skills/carpark_client/handlers.py:80-85 | two undecided proposals from one sender are both accepted: at most one ACCEPT needs distinct senders |
| `ProposalRound.RepliesFollowRecords` | packages/fetchai/skills/carpark_client/handlers.py:95-111 | one reply per record, in list order, to the proposal's sender, with the record's decision as performative, and with the policy's terms exactly on the ACCEPTs |
| `ProposalRound.SendReplies` | packages/fetchai/skills/carpark_client/handlers.py:95-113 | the outbox grows by exactly the replies to the received records, and both round lists are then empty; the ticker (behaviours.py:97-115) calls the same method |
| `CarparkHandlers.IncomingRecord` | packages/fetchai/skills/carpark_client/handlers.py:60-69 | the new record carries the message's sender and the message; its decision is DECLINE iff the proposal is unacceptable or unaffordable, and None iff it is both acceptable and affordable |
| `CarparkHandlers.FipaHandler.HandlePropose` | packages/fetchai/skills/carpark_client/handlers.py:46-86 | exactly one record is appended; if the received count then equals the sent count, the outbox gets the replies to the decided round and both lists are emptied; otherwise nothing else changes; it keeps received <= sent and keeps records buffered |
| `CarparkHandlers.FipaHandler.HandleProposeSend` | packages/fetchai/skills/carpark_client/handlers.py:88-113 | replies to every received record in order and then empties both lists |
| `CarparkHandlers.CfpsFollowCounterparties` | packages/fetchai/skills/carpark_client/handlers.py:143-150 | one CFP per counterparty, in order, addressed to it |
| `CarparkHandlers.OefSearchHandler.HandleSearch` | packages/fetchai/skills/carpark_client/handlers.py:119-152 | an empty result changes nothing; otherwise searching stops when the strategy stops on the first result, the sent list is extended by exactly the acceptable counterparties in order, and one CFP per counterparty is emitted |
| `CarparkBehaviours.Senders` | packages/fetchai/skills/carpark_client/behaviours.py:62 | the senders of the received records, one per record, in order |
| `CarparkBehaviours.AllReplied` | packages/fetchai/skills/carpark_client/behaviours.py:61-63 | every sent id is among the received senders exactly when the set of sent ids is a subset of the set of senders; true when nothing was sent |
| `CarparkBehaviours.SentWithinSenders` | packages/fetchai/skills/carpark_client/behaviours.py:61-63 | checking the sent ids one by one against the sender list is the same as the subset test on the two sets |
| `CarparkBehaviours.ProposalCheckBehaviour.constructor` | packages/fetchai/skills/carpark_client/behaviours.py:46-49 | the counter starts at 0 |
| `CarparkBehaviours.ProposalCheckBehaviour.Act` | packages/fetchai/skills/carpark_client/behaviours.py:54-72 | nothing changes while not waiting; the round is decided, answered and reset when every sent id is among the received senders (vacuously when nothing was sent) or when the counter exceeds interval - 1; otherwise only the counter grows by 1; 0 <= counter <= max(0, interval) is kept |
| `CarparkBehaviours.ProposalCheckBehaviour.HandleAllProposalsReceived` | packages/fetchai/skills/carpark_client/behaviours.py:77-91 | the outbox gets the replies to the decided round; both lists are emptied, waiting is cleared and the counter is 0 |
| `CarparkBehaviours.ProposalCheckBehaviour.AnswerProposals` | packages/fetchai/skills/carpark_client/behaviours.py:93-117 | replies to every received record in order; then both lists are empty, waiting is false and the counter is 0 |
| `NegotiationScenario.CheapestPendingWins` | packages/fetchai/skills/carpark_client/handlers.py:74-85 | on Y=9, X=15 pre-declined, Z=11 the pass accepts Y, keeps X declined and declines Z |

## Left out

- Logging and the `sender[-5:]` truncation exist only for log output and are not modelled.
- The generic buyer's policy (acceptability, affordability, the counterparty filter, terms derivation, the service query) is defined outside this model. It is supplied as the functions of a `BuyerPolicy` value. The flags `is_searching`, `is_stop_searching_on_result`, `waiting_for_proposals` and the setting `proposal_check_interval` are plain fields set at construction.
- The dialogue machinery (`FipaDialogues.create`, `get_dialogue`, `reply`) and `outbox.put_message` are defined outside this model. A sent message is an `Outgoing` entry appended to the outbox. It carries the receiver, the performative, and the terms attached to the dialogue of an ACCEPT. Dialogue lookup and dialogue state transitions are not modelled.
- The service query attached to each CFP is not carried in the outbox entry.
- A proposal description is reduced to an integer price plus the remaining attributes. A proposal without a `price` value (a `KeyError` in the source) is not modelled.
- `SendReplies`, `HandleProposeSend` and `AnswerProposals` require every received record to be decided. Their only callers run the decision pass first, and the decision pass leaves no record undecided. A reply with a `None` performative is not modelled.
- Python lists are modelled as values. The source's undecided list shares its dictionaries with the received list. The model instead updates the received records in place by index, which has the same effect.
- The ticker's scheduling and timing are not modelled: `Act` is one tick. `setup` and `teardown` are empty in the source and are not modelled.
- The code that sets `waiting_for_proposals` to true belongs to the generic buyer and is not part of this model.
