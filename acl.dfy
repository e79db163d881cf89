/**
 * The slice of the JADE agent platform the three agents rely on: agent
 * identifiers, the closed set of performatives they use, messages, and the
 * directory-facilitator search each client performs to find the ledger.
 */
module Acl {
  import opened Wrappers

  /** An agent identifier, named by its local name. */
  datatype AID = AID(name: string)

  /** The performatives the agents switch on; `Other` stands for every remaining one. */
  datatype Performative = Request | Inform | Confirm | Refuse | Other

  /**
   * An ACL message with its single receiver. The platform stamps the sender
   * with the sending agent's own identifier.
   */
  datatype Message = Message(performative: Performative, sender: AID, receiver: AID, content: string)

  /** What `DFService.search` gives back: the matching agents, or a FIPA exception. */
  datatype SearchResult = Found(agents: seq<AID>) | SearchFailed

  /**
   * `findAgentFromDF`: the first agent of a non-empty search result; nothing
   * when the search finds no agent or throws.
   */
  function FindAgentFromDF(result: SearchResult): (found: Option<AID>)
    ensures found.Some? <==> result.Found? && |result.agents| > 0
    ensures found.Some? ==> found.value == result.agents[0]
  {
    match result
    case Found(agents) => if |agents| > 0 then Some(agents[0]) else None
    case SearchFailed => None
  }
}
