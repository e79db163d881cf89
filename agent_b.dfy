/**
 * Agent B, the relay: an INFORM carries a token, which B sends to the ledger
 * as a redeem REQUEST; the ledger's CONFIRM or REFUSE ends the transaction.
 * B keeps no state; what it would log is returned as a `Note`.
 */
module AgentB {
  import opened Wrappers
  import opened Acl

  /** What B reports for the message it handled. */
  datatype Note = TokenForwarded | LedgerNotFound | TransactionConfirmed | TransactionRefused | InvalidPerformative

  /** The message B sends, if any, and its note. */
  datatype Reaction = Reaction(out: Option<Message>, note: Note)

  /**
   * The receive-loop dispatch. `lookup` is what the directory search for the
   * ledger returns; B consults it only for an INFORM.
   */
  function Respond(self: AID, msg: Message, lookup: SearchResult): (r: Reaction)
    ensures r.out.Some? <==> msg.performative == Inform && lookup.Found? && |lookup.agents| > 0
    ensures r.out.Some? ==> && r.out.value.performative == Request
                            && r.out.value.content == msg.content
                            && r.out.value.sender == self
                            && r.out.value.receiver == lookup.agents[0]
    ensures msg.performative == Inform ==> r.note in {TokenForwarded, LedgerNotFound}
    ensures msg.performative == Inform ==> (r.note == TokenForwarded <==> r.out.Some?)
    ensures msg.performative == Request || msg.performative == Other ==> r.note == InvalidPerformative
    ensures msg.performative == Confirm <==> r.note == TransactionConfirmed
    ensures msg.performative == Refuse <==> r.note == TransactionRefused
  {
    match msg.performative
    case Inform =>
      (match FindAgentFromDF(lookup)
       case Some(ledger) => Reaction(Some(Message(Request, self, ledger, msg.content)), TokenForwarded)
       case None => Reaction(None, LedgerNotFound))
    case Confirm => Reaction(None, TransactionConfirmed)
    case Refuse => Reaction(None, TransactionRefused)
    case _ => Reaction(None, InvalidPerformative)
  }

  /**
   * B keeps no state: its reaction depends only on the performative and the
   * content of the message and, for an INFORM, on the lookup.
   */
  lemma NoHiddenState(self: AID, m1: Message, m2: Message, l1: SearchResult, l2: SearchResult)
    requires m1.performative == m2.performative && m1.content == m2.content
    requires m1.performative == Inform ==> FindAgentFromDF(l1) == FindAgentFromDF(l2)
    ensures Respond(self, m1, l1) == Respond(self, m2, l2)
  {
  }
}
