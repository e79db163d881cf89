/**
 * The Ledger agent: owner of the token store. `Step` is the message handler
 * as a function of the store; `LedgerAgent` is the agent object whose
 * `Handle` method updates its store in place and is proved to follow `Step`.
 */
module Ledger {
  import opened Wrappers
  import opened Strings
  import opened Acl

  type Token = string

  /** The content by which a request asks for a new token (matched as a substring). */
  const IssueMarker: string := "false"
  /** Every token starts with this prefix. */
  const TokenPrefix: string := "TXN-"
  /** The reason sent with a refusal. */
  const NotAvailable: string := "Token is not available..."

  predicate IsHexDigit(c: char) {
    '0' <= c <= '9' || 'a' <= c <= 'f'
  }

  /**
   * The text of `UUID.toString()`: 32 lower-case hex digits in groups of
   * 8-4-4-4-12 separated by hyphens (section 3 of RFC 4122).
   */
  predicate IsUuidString(u: string) {
    |u| == 36 &&
    forall i :: 0 <= i < 36 ==>
      if i == 8 || i == 13 || i == 18 || i == 23 then u[i] == '-' else IsHexDigit(u[i])
  }

  /** A well-formed token: the prefix followed by a UUID string. */
  predicate IsToken(t: string) {
    StartsWith(t, TokenPrefix) && IsUuidString(t[|TokenPrefix|..])
  }

  /** `createToken`, with the random UUID text taken as a parameter. */
  function CreateToken(uuid: string): (token: Token)
    ensures IsUuidString(uuid) ==> IsToken(token)
    ensures StartsWith(token, TokenPrefix) && token[|TokenPrefix|..] == uuid
  {
    TokenPrefix + uuid
  }

  /** Distinct UUID strings give distinct tokens. */
  lemma CreateTokenInjective(u1: string, u2: string)
    requires CreateToken(u1) == CreateToken(u2)
    ensures u1 == u2
  {
  }

  /** No well-formed token contains the issue marker: it lacks the marker's 'l'. */
  lemma TokenIsNotIssueMarker(t: string)
    requires IsToken(t)
    ensures !Contains(t, IssueMarker)
  {
    forall i | 0 <= i < |t| ensures t[i] != 'l' {
      if i < |TokenPrefix| {
        assert t[i] == t[..|TokenPrefix|][i];
      } else {
        assert t[i] == t[|TokenPrefix|..][i - |TokenPrefix|];
      }
    }
    assert IssueMarker[2] == 'l';
    MissingCharNotContained(t, IssueMarker, 2);
  }

  /** The Ledger reads a REQUEST whose content contains the marker as a request to issue. */
  predicate IsIssueRequest(msg: Message) {
    msg.performative == Request && Contains(msg.content, IssueMarker)
  }

  /** Any other REQUEST asks to redeem the token its content names. */
  predicate IsRedeemRequest(msg: Message) {
    msg.performative == Request && !Contains(msg.content, IssueMarker)
  }

  /** A reply that confirms the redemption of `t`. */
  predicate ConfirmsToken(reply: Option<Message>, t: Token) {
    reply.Some? && reply.value.performative == Confirm && reply.value.content == t
  }

  /** The store after one message, and the reply sent, if any. */
  datatype Outcome = Outcome(store: map<Token, AID>, reply: Option<Message>)

  /**
   * `identifyIntensionAndRespond` on the store `store` of the ledger `self`;
   * `uuid` is the text the random UUID would have.
   */
  function Step(store: map<Token, AID>, self: AID, msg: Message, uuid: string): (o: Outcome)
    ensures msg.performative != Request ==> o.store == store && o.reply.None?
    ensures msg.performative == Request ==> o.reply.Some?
    ensures o.reply.Some? ==> o.reply.value.sender == self && o.reply.value.receiver == msg.sender
    ensures o.store.Keys <= store.Keys + {CreateToken(uuid)}
  {
    match msg.performative
    case Request =>
      if Contains(msg.content, IssueMarker) then
        var token := CreateToken(uuid);
        Outcome(store[token := msg.sender], Some(Message(Request, self, msg.sender, token)))
      else if msg.content in store then
        Outcome(store - {msg.content}, Some(Message(Confirm, self, msg.sender, msg.content)))
      else
        Outcome(store, Some(Message(Refuse, self, msg.sender, NotAvailable)))
    case _ => Outcome(store, None)
  }

  /** Issuing with a token not yet stored adds exactly that entry and replies with the token. */
  lemma IssueAddsExactlyOne(store: map<Token, AID>, self: AID, msg: Message, uuid: string)
    requires IsIssueRequest(msg)
    requires CreateToken(uuid) !in store
    ensures var o := Step(store, self, msg, uuid);
      && o.store.Keys == store.Keys + {CreateToken(uuid)}
      && o.store[CreateToken(uuid)] == msg.sender
      && (forall k :: k in store ==> o.store[k] == store[k])
      && |o.store| == |store| + 1
      && o.reply == Some(Message(Request, self, msg.sender, CreateToken(uuid)))
  {
  }

  /**
   * A redeem request is confirmed exactly when its content is a stored token;
   * a confirmed token is removed and nothing else changes, a refused one
   * leaves the store as it was.
   */
  lemma RedeemOutcome(store: map<Token, AID>, self: AID, msg: Message, uuid: string)
    requires IsRedeemRequest(msg)
    ensures var o := Step(store, self, msg, uuid);
      && (o.reply.value.performative == Confirm <==> msg.content in store)
      && (msg.content in store ==>
            && o.reply == Some(Message(Confirm, self, msg.sender, msg.content))
            && o.store.Keys == store.Keys - {msg.content}
            && (forall k :: k in o.store ==> o.store[k] == store[k])
            && |o.store| == |store| - 1)
      && (msg.content !in store ==>
            o.reply == Some(Message(Refuse, self, msg.sender, NotAvailable)) && o.store == store)
  {
  }

  /** Right after a token is confirmed, redeeming it again, by anyone, is refused. */
  lemma SecondRedeemRefused(store: map<Token, AID>, self: AID, m1: Message, m2: Message, u1: string, u2: string)
    requires IsRedeemRequest(m1) && m2.performative == Request && m2.content == m1.content
    requires ConfirmsToken(Step(store, self, m1, u1).reply, m1.content)
    ensures var o := Step(Step(store, self, m1, u1).store, self, m2, u2);
      o.reply == Some(Message(Refuse, self, m2.sender, NotAvailable))
  {
  }

  /**
   * Round trip: a token issued for `x` and then redeemed by any `y` is
   * confirmed to `y`, and the store is back to what it was.
   */
  lemma IssueThenRedeem(store: map<Token, AID>, self: AID, x: AID, y: AID, marker: string, uuid: string, u2: string)
    requires Contains(marker, IssueMarker)
    requires IsUuidString(uuid) && CreateToken(uuid) !in store
    ensures var t := CreateToken(uuid);
      var o1 := Step(store, self, Message(Request, x, self, marker), uuid);
      && o1.reply == Some(Message(Request, self, x, t))
      && var o2 := Step(o1.store, self, Message(Request, y, self, t), u2);
      && o2.reply == Some(Message(Confirm, self, y, t))
      && o2.store == store
  {
    var t := CreateToken(uuid);
    TokenIsNotIssueMarker(t);
    assert store[t := x] - {t} == store;
  }

  /** Redeeming does not look at the requester: only the content decides. */
  lemma AnyoneMayRedeem(store: map<Token, AID>, self: AID, m1: Message, m2: Message, u1: string, u2: string)
    requires IsRedeemRequest(m1)
    requires m2.performative == Request && m2.content == m1.content
    ensures var o1 := Step(store, self, m1, u1);
      var o2 := Step(store, self, m2, u2);
      o1.store == o2.store && o1.reply.value.performative == o2.reply.value.performative
      && o1.reply.value.content == o2.reply.value.content
  {
  }

  /**
   * The Ledger agent object. `tokenStore` is the map it mutates; `issued` is
   * a ghost record of every token handed out so far.
   */
  class LedgerAgent {
    const id: AID
    var tokenStore: map<Token, AID>
    ghost var issued: set<Token>

    /** Every stored token has been issued. */
    ghost predicate Valid()
      reads this
    {
      tokenStore.Keys <= issued
    }

    constructor (id: AID)
      ensures Valid() && this.id == id
      ensures tokenStore == map[] && issued == {}
    {
      this.id := id;
      tokenStore := map[];
      issued := {};
    }

    /**
     * Handle one incoming message. An issue request needs the UUID text to be
     * well-formed and its token never issued before; that is how the random
     * UUID is modelled.
     */
    method Handle(msg: Message, uuid: string) returns (reply: Option<Message>)
      requires Valid()
      requires IsIssueRequest(msg) ==> IsUuidString(uuid) && CreateToken(uuid) !in issued
      modifies this
      ensures Valid()
      ensures tokenStore == Step(old(tokenStore), id, msg, uuid).store
      ensures reply == Step(old(tokenStore), id, msg, uuid).reply
      ensures issued == if IsIssueRequest(msg) then old(issued) + {CreateToken(uuid)} else old(issued)
      ensures forall t :: t in old(issued) && t !in old(tokenStore) ==> t !in tokenStore
    {
      var sender := msg.sender;
      match msg.performative {
        case Request =>
          if Contains(msg.content, IssueMarker) {
            var token := CreateToken(uuid);
            tokenStore := tokenStore[token := sender];
            issued := issued + {token};
            reply := Some(Message(Request, id, sender, token));
          } else {
            var token := msg.content;
            if token in tokenStore {
              tokenStore := tokenStore - {token};
              reply := Some(Message(Confirm, id, sender, token));
            } else {
              reply := Some(Message(Refuse, id, sender, NotAvailable));
            }
          }
        case _ =>
          reply := None;
      }
    }
  }
}
