/**
 * Agent A, the initiator: at startup it asks the ledger for a token, and it
 * forwards any REQUEST it receives to agent B as an INFORM. It keeps no state.
 */
module AgentA {
  import opened Wrappers
  import opened Acl

  /** The identifier A addresses B by (`getAID("B")`), a constant here. */
  const BId: AID := AID("B")
  /** The content of A's startup request. */
  const StartContent: string := "false"

  /** The receive-loop dispatch: a REQUEST is passed on to B as an INFORM with the same content. */
  function Respond(self: AID, msg: Message): (out: Option<Message>)
    ensures out.Some? <==> msg.performative == Request
    ensures out.Some? ==> && out.value.performative == Inform
                          && out.value.content == msg.content
                          && out.value.sender == self
                          && out.value.receiver == BId
  {
    match msg.performative
    case Request => Some(Message(Inform, self, BId, msg.content))
    case _ => None
  }

  /**
   * The one-shot startup action: given what the directory search for the
   * ledger returned, one REQUEST with content "false" to the first ledger
   * found, or nothing.
   */
  function Startup(self: AID, lookup: SearchResult): (out: Option<Message>)
    ensures out.Some? <==> lookup.Found? && |lookup.agents| > 0
    ensures out.Some? ==> && out.value.performative == Request
                          && out.value.content == StartContent
                          && out.value.sender == self
                          && out.value.receiver == lookup.agents[0]
  {
    match FindAgentFromDF(lookup)
    case Some(ledger) => Some(Message(Request, self, ledger, StartContent))
    case None => None
  }
}
