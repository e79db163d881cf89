# Single-use token protocol of three JADE agents, modelled in Dafny

Three agents run a one-token transaction. The **Ledger** (`LedgerAgent`) issues and redeems tokens. **Agent A** is the initiator and **Agent B** the relay.

1. At startup, A looks up the ledger in the directory facilitator and sends it a `REQUEST` with content `"false"`.
2. The ledger creates the token `"TXN-" + UUID`, stores `token -> sender` and replies with the token. The reply is itself a `REQUEST`.
3. A forwards the content to B as an `INFORM`.
4. B looks up the ledger and sends the token to it as a `REQUEST`.
5. The ledger removes a stored token and answers `CONFIRM`, or answers `REFUSE` with `"Token is not available..."`.
6. B logs the outcome.

The model treats each agent's message handler as one step on one message.

- `Acl` holds agent identifiers, the closed set of performatives (`Request`, `Inform`, `Confirm`, `Refuse`, `Other`) and messages. It also holds the directory search, whose result is a parameter: the agents found, or a failure that stands for the FIPA exception.
- `Strings.Contains` is the substring test of `String.contains`.
- `Ledger.Step` is the ledger's handler as a function of the token store.
- `Ledger.LedgerAgent` is the agent object. Its `tokenStore` map is updated in place by `Handle`, which is proved to follow `Step`. A ghost set `issued` records every token ever handed out.
- `LedgerTrace.Run` is the receive loop as a sequence of steps.
- `AgentA` and `AgentB` are stateless dispatchers written as pure functions. B's log line is returned as a `Note`.
- `Protocol` composes the three agents by delivering each message to its receiver.

Three details of the code that the model keeps:

- The ledger's token reply is a `REQUEST`, and A reacts to `REQUEST`.
- A request asks for a new token when its content *contains* `"false"`.
- B keeps no state. It only logs `CONFIRM` and `REFUSE`.

## Model

| member | source | states |
|---|---|---|
| `Acl.FindAgentFromDF` | AgentA.java:15-36 | The result is an agent exactly when the search returned at least one. That agent is then the first one found. A failed search and an empty search both give nothing. B's lookup (AgentB.java:14-34) is the same code. |
| `Strings.Contains` | LedgerAgent.java:53 | The substring test `content.contains("false")`. Its contract states that a contained string is never longer than the string that contains it. Its meaning as "occurs at some index" is `ContainsIffOccurs`. |
| `Strings.ContainsIffOccurs` | LedgerAgent.java:53 | The recursive substring test used for `contains` holds exactly when `sub` occurs at some index of `s`. |
| `Ledger.CreateToken` | LedgerAgent.java:36-39 | The token is `"TXN-"` followed by the UUID text. It is a well-formed token whenever that text is a UUID string. |
| `Ledger.CreateTokenInjective` | LedgerAgent.java:37 | Different UUID texts give different tokens. |
| `Ledger.TokenIsNotIssueMarker` | LedgerAgent.java:36-53 | A well-formed token never contains `"false"`, so a token sent back for redemption is never read as an issue request. |
| `Ledger.Step` | LedgerAgent.java:49-79 | A non-`REQUEST` gets no reply and leaves the store unchanged. Every `REQUEST` gets exactly one reply. Each reply comes from the ledger and goes to the incoming sender. The only key a step can add is the new token. |
| `Ledger.IssueAddsExactlyOne` | LedgerAgent.java:52-58 | Take an issue request whose token is not yet stored. The step adds exactly the entry `token -> sender` and keeps every other entry. The store grows by one. The reply is a `REQUEST` to the sender carrying the token. |
| `Ledger.RedeemOutcome` | LedgerAgent.java:60-74 | A redeem request is confirmed if and only if its content is a stored key. On `CONFIRM`, that key is removed, every other entry stays and the reply carries the token. On `REFUSE`, the reply carries `"Token is not available..."` and the store is unchanged. |
| `Ledger.SecondRedeemRefused` | LedgerAgent.java:62-73 | Right after a token is confirmed, a second redemption of it is refused, whoever sends it. |
| `Ledger.IssueThenRedeem` | LedgerAgent.java:53-66 | A token issued for `x` and then redeemed by any `y` is confirmed to `y`. The store ends equal to its original value. |
| `Ledger.AnyoneMayRedeem` | LedgerAgent.java:50-66 | The outcome of a redemption does not depend on who sends it. The issuer recorded in the store is never checked. |
| `Ledger.LedgerAgent.constructor` | LedgerAgent.java:14 | A new ledger starts with an empty token store and nothing issued. |
| `Ledger.LedgerAgent.Handle` | LedgerAgent.java:49-79 | Handling one message updates the store and produces the reply exactly as `Step` does. It keeps every stored token in the issued set and adds only the new token to that set. A token that was issued and is no longer stored never returns. An issue step needs a well-formed UUID text whose token was never issued. |
| `LedgerTrace.Run` | LedgerAgent.java:86-97 | Its contract gives exactly one reply slot per message. Handling the messages one at a time, in arrival order, is its definition, which the trace lemmas below use. |
| `LedgerTrace.NeverConfirmedAgain` | LedgerAgent.java:36-73 | With fresh issuance, a token that was issued and is no longer stored is never confirmed again by any later message. |
| `LedgerTrace.ConfirmedAtMostOnce` | LedgerAgent.java:53-73 | In any run with fresh issuance, at most one reply confirms a given token. |
| `LedgerTrace.IssueBatchSize` | LedgerAgent.java:52-58 | n issue requests with fresh UUIDs grow the store by exactly n. |
| `LedgerTrace.IssueBatchReplies` | LedgerAgent.java:52-58 | Each of n issue requests with fresh UUIDs gets a `REQUEST` reply to its sender. The reply carries a token that was not issued before and is stored at the end. |
| `LedgerTrace.IssueBatchDistinct` | LedgerAgent.java:36-58 | The tokens handed out for a batch of issue requests with fresh UUIDs are pairwise distinct. |
| `AgentA.Respond` | AgentA.java:46-57 | A `REQUEST` yields exactly one `INFORM` to agent `B` with the same content. Any other performative yields nothing. |
| `AgentA.Startup` | AgentA.java:64-78 | If the ledger search finds an agent, A sends exactly one `REQUEST` with content `"false"`, addressed to the first agent found. Otherwise A sends nothing. |
| `AgentB.Respond` | AgentB.java:44-67 | An `INFORM` with the ledger found yields exactly one `REQUEST` to that ledger carrying the content unchanged. An `INFORM` without the ledger yields nothing. `CONFIRM` and `REFUSE` yield nothing and are reported as confirmed or refused. Any other performative yields nothing. |
| `AgentB.NoHiddenState` | AgentB.java:44-67 | B's reaction depends only on the performative and the content, plus the lookup for an `INFORM`. It does not depend on the sender or on earlier messages. |
| `Protocol.StartupIsIssueRequest` | AgentA.java:69-71 | A's startup message is classified by the ledger as an issue request. |
| `Protocol.HappyPath` | LedgerAgent.java:52-66 | A's startup request reaches the ledger, and the issued token comes back to A. A forwards it unchanged to B, and B forwards it unchanged to the ledger. The ledger answers `CONFIRM` to B, its store equals the original store, and B reports the transaction as confirmed. |
| `Protocol.UnknownTokenRefused` | LedgerAgent.java:68-73 | Suppose B forwards a value that the ledger does not hold and that does not contain `"false"`. The ledger answers `REFUSE` with the fixed reason and leaves the store unchanged. B reports the transaction as refused. |
| `Protocol.MarkerHandbackIssuesInstead` | LedgerAgent.java:53-58 | A forwarded value that contains `"false"` is not redeemed. Instead the ledger issues a new token to B, and B treats that reply as an invalid performative. |
| `Protocol.RunHappyPath` | LedgerAgent.java:86-97 | Running the happy path against a ledger object leaves its store as it was. B's outcome is confirmed. |

## Left out

- Directory facilitator registration and deregistration (LedgerAgent.java:17-33, 101-109) are left out. They are platform plumbing.
- The internals of `DFService.search` are left out. Its answer is the `SearchResult` parameter.
- `send`, `receive`, `block` and the `CyclicBehaviour`/`OneShotBehaviour` scheduling are left out. Delivery is explicit composition of the handlers.
- Asynchronous delivery and interleaving across agents are left out. Each handler runs to completion on one message, and only sequential steps are modelled.
- `UUID.randomUUID()` is not modelled as randomness. Its text is a parameter, and freshness is a precondition: the token was never issued before.
- Console output (`println`, `err.println`) is left out. B's lines appear only as the returned `Note`, and A's and the ledger's lines are dropped.
- Null message content is left out. `getContent().contains` would throw on it, and content is modelled as a string.
- How `getAID("B")` resolves a name to an identifier is left out. A addresses B by the constant `BId`, which is `AID("B")`.
- The sender of each outgoing message is the sending agent's own identifier, which JADE's `send` stamps on it. Each message has exactly one receiver, because each handler adds exactly one.
