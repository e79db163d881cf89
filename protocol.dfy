/**
 * The three agents composed: each message is delivered to its receiver,
 * whose handler runs to completion before the next message is taken.
 */
module Protocol {
  import opened Wrappers
  import opened Strings
  import opened Acl
  import opened Ledger
  import AgentA
  import AgentB

  /** A's startup content is read by the Ledger as a request to issue a token. */
  lemma StartupIsIssueRequest(a: AID, lookup: SearchResult)
    requires AgentA.Startup(a, lookup).Some?
    ensures IsIssueRequest(AgentA.Startup(a, lookup).value)
  {
  }

  /**
   * The happy path: A's startup request reaches the ledger, which issues a
   * token to A; A forwards the token unchanged to B, B forwards it unchanged
   * to the ledger, the ledger confirms it to B with its store back as it
   * was, and B reports the transaction as confirmed.
   */
  lemma HappyPath(store: map<Token, AID>, a: AID, lookup: SearchResult, uuid: string, u2: string)
    requires FindAgentFromDF(lookup).Some?
    requires IsUuidString(uuid) && CreateToken(uuid) !in store
    ensures var ledger := lookup.agents[0];
      var t := CreateToken(uuid);
      var m1 := AgentA.Startup(a, lookup);
      && m1.Some? && m1.value.receiver == ledger
      && var o1 := Step(store, ledger, m1.value, uuid);
      && o1.reply == Some(Message(Request, ledger, a, t))
      && o1.store == store[t := a]
      && var m2 := AgentA.Respond(a, o1.reply.value);
      && m2 == Some(Message(Inform, a, AgentA.BId, t))
      && var r := AgentB.Respond(AgentA.BId, m2.value, lookup);
      && r.out == Some(Message(Request, AgentA.BId, ledger, t))
      && var o2 := Step(o1.store, ledger, r.out.value, u2);
      && o2.reply == Some(Message(Confirm, ledger, AgentA.BId, t))
      && o2.store == store
      && AgentB.Respond(AgentA.BId, o2.reply.value, lookup).note == AgentB.TransactionConfirmed
  {
    var ledger := lookup.agents[0];
    StartupIsIssueRequest(a, lookup);
    IssueThenRedeem(store, ledger, a, AgentA.BId, AgentA.StartContent, uuid, u2);
  }

  /**
   * A token value the ledger does not hold, handed to B, is refused to B
   * with the fixed reason and the store unchanged, and B reports the
   * transaction as refused.
   */
  lemma UnknownTokenRefused(store: map<Token, AID>, a: AID, b: AID, token: string, lookup: SearchResult, u: string)
    requires FindAgentFromDF(lookup).Some?
    requires token !in store && !Contains(token, IssueMarker)
    ensures var ledger := lookup.agents[0];
      var r := AgentB.Respond(b, Message(Inform, a, b, token), lookup);
      && r.out == Some(Message(Request, b, ledger, token))
      && var o := Step(store, ledger, r.out.value, u);
      && o.reply == Some(Message(Refuse, ledger, b, NotAvailable))
      && o.store == store
      && AgentB.Respond(b, o.reply.value, lookup).note == AgentB.TransactionRefused
  {
  }

  /**
   * The issue/redeem ambiguity: a handed-over value that contains "false"
   * is not redeemed but makes the ledger issue a fresh token to B, which B
   * does not recognise (it reacts to REQUEST as to any unexpected message).
   */
  lemma MarkerHandbackIssuesInstead(store: map<Token, AID>, a: AID, b: AID, content: string, lookup: SearchResult, u: string)
    requires FindAgentFromDF(lookup).Some?
    requires Contains(content, IssueMarker)
    ensures var ledger := lookup.agents[0];
      var r := AgentB.Respond(b, Message(Inform, a, b, content), lookup);
      && r.out.Some?
      && var o := Step(store, ledger, r.out.value, u);
      && o.reply == Some(Message(Request, ledger, b, CreateToken(u)))
      && CreateToken(u) in o.store && o.store[CreateToken(u)] == b
      && AgentB.Respond(b, o.reply.value, lookup) == AgentB.Reaction(None, AgentB.InvalidPerformative)
  {
  }

  /**
   * One run of the protocol against a ledger object: the two ledger steps
   * are performed by `Handle` in place. B ends confirmed and the store ends
   * as it began, with one more token on record as issued.
   */
  method RunHappyPath(ledger: LedgerAgent, a: AID, lookup: SearchResult, uuid: string, u2: string)
    returns (note: AgentB.Note)
    requires ledger.Valid()
    requires FindAgentFromDF(lookup) == Some(ledger.id)
    requires IsUuidString(uuid) && CreateToken(uuid) !in ledger.issued
    modifies ledger
    ensures ledger.Valid()
    ensures note == AgentB.TransactionConfirmed
    ensures ledger.tokenStore == old(ledger.tokenStore)
    ensures ledger.issued == old(ledger.issued) + {CreateToken(uuid)}
  {
    HappyPath(ledger.tokenStore, a, lookup, uuid, u2);
    StartupIsIssueRequest(a, lookup);
    TokenIsNotIssueMarker(CreateToken(uuid));
    var m1 := AgentA.Startup(a, lookup);
    var reply1 := ledger.Handle(m1.value, uuid);
    var m2 := AgentA.Respond(a, reply1.value);
    var r := AgentB.Respond(AgentA.BId, m2.value, lookup);
    var reply2 := ledger.Handle(r.out.value, u2);
    note := AgentB.Respond(AgentA.BId, reply2.value, lookup).note;
  }
}
