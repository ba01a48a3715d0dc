/** Values exchanged by the car-park buyer: agent addresses, FIPA performatives,
    the proposal a seller sends, and the messages the buyer puts in its outbox. */
module FipaTypes {

  datatype Option<+T> = None | Some(value: T)

  /** An agent address (a wallet address string). */
  type AgentId = string

  /** The speech act of a FIPA message. */
  datatype Performative = Cfp | Propose | Accept | Decline

  /** The proposal description a seller attaches to a PROPOSE message: its
      price, plus the remaining attribute values, which only the buyer's
      policy looks at. */
  datatype Description = Description(price: int, attributes: map<string, string>)

  /** An incoming PROPOSE message. */
  datatype ProposeMessage = ProposeMessage(sender: AgentId, proposal: Description)

  /** The terms the buyer's policy derives from an accepted proposal; this
      core only carries them from the policy to the dialogue. */
  datatype Terms = Terms(values: map<string, string>)

  /** A message handed to the outbox: its receiver, its performative, and the
      terms attached to its dialogue when the message is an ACCEPT. */
  datatype Outgoing = Outgoing(to: AgentId, performative: Performative, terms: Option<Terms>)
}
