/**
 * The Ledger's receive loop as a sequence of steps: messages are handled one
 * at a time, in arrival order, each to completion before the next.
 */
module LedgerTrace {
  import opened Wrappers
  import opened Acl
  import opened Ledger

  /** The store after a run, and the reply to each message in order. */
  datatype Trace = Trace(store: map<Token, AID>, replies: seq<Option<Message>>)

  /** Handle `msgs` in order from `store`; `uuids[k]` is the UUID text available to step `k`. */
  function Run(store: map<Token, AID>, self: AID, msgs: seq<Message>, uuids: seq<string>): (t: Trace)
    requires |uuids| == |msgs|
    ensures |t.replies| == |msgs|
    decreases |msgs|
  {
    if msgs == [] then Trace(store, [])
    else
      var o := Step(store, self, msgs[0], uuids[0]);
      var rest := Run(o.store, self, msgs[1..], uuids[1..]);
      Trace(rest.store, [o.reply] + rest.replies)
  }

  /**
   * Every issue request in the run gets a well-formed UUID whose token was
   * never issued before, counting the tokens issued earlier in the run.
   */
  ghost predicate FreshIssuance(issued: set<Token>, msgs: seq<Message>, uuids: seq<string>)
    requires |uuids| == |msgs|
    decreases |msgs|
  {
    msgs == [] ||
    if IsIssueRequest(msgs[0]) then
      var t := CreateToken(uuids[0]);
      IsUuidString(uuids[0]) && t !in issued && FreshIssuance(issued + {t}, msgs[1..], uuids[1..])
    else
      FreshIssuance(issued, msgs[1..], uuids[1..])
  }

  /** Once a token has been issued and is no longer stored, no later reply confirms it. */
  lemma {:induction false} NeverConfirmedAgain(store: map<Token, AID>, issued: set<Token>, self: AID,
                                               t: Token, msgs: seq<Message>, uuids: seq<string>)
    requires |uuids| == |msgs|
    requires store.Keys <= issued && t in issued && t !in store
    requires FreshIssuance(issued, msgs, uuids)
    ensures forall k :: 0 <= k < |msgs| ==> !ConfirmsToken(Run(store, self, msgs, uuids).replies[k], t)
    decreases |msgs|
  {
    if msgs != [] {
      var o := Step(store, self, msgs[0], uuids[0]);
      var issued' := if IsIssueRequest(msgs[0]) then issued + {CreateToken(uuids[0])} else issued;
      assert !ConfirmsToken(o.reply, t);
      NeverConfirmedAgain(o.store, issued', self, t, msgs[1..], uuids[1..]);
      var r := Run(store, self, msgs, uuids);
      assert r.replies == [o.reply] + Run(o.store, self, msgs[1..], uuids[1..]).replies;
    }
  }

  /** At-most-once redemption: in any run with fresh issuance, at most one reply confirms a given token. */
  lemma {:induction false} ConfirmedAtMostOnce(store: map<Token, AID>, issued: set<Token>, self: AID,
                                               t: Token, msgs: seq<Message>, uuids: seq<string>)
    requires |uuids| == |msgs|
    requires store.Keys <= issued
    requires FreshIssuance(issued, msgs, uuids)
    ensures forall i, j ::
              && 0 <= i < |msgs| && 0 <= j < |msgs|
              && ConfirmsToken(Run(store, self, msgs, uuids).replies[i], t)
              && ConfirmsToken(Run(store, self, msgs, uuids).replies[j], t)
              ==> i == j
    decreases |msgs|
  {
    if msgs != [] {
      var o := Step(store, self, msgs[0], uuids[0]);
      var issued' := if IsIssueRequest(msgs[0]) then issued + {CreateToken(uuids[0])} else issued;
      var rest := Run(o.store, self, msgs[1..], uuids[1..]);
      assert Run(store, self, msgs, uuids).replies == [o.reply] + rest.replies;
      if ConfirmsToken(o.reply, t) {
        NeverConfirmedAgain(o.store, issued', self, t, msgs[1..], uuids[1..]);
      } else {
        ConfirmedAtMostOnce(o.store, issued', self, t, msgs[1..], uuids[1..]);
        var replies := Run(store, self, msgs, uuids).replies;
        forall i, j | 0 <= i < |msgs| && 0 <= j < |msgs| && ConfirmsToken(replies[i], t) && ConfirmsToken(replies[j], t)
          ensures i == j
        {
          assert replies[0] == o.reply;
          assert i > 0 && j > 0;
          assert replies[i] == rest.replies[i - 1] && replies[j] == rest.replies[j - 1];
          assert ConfirmsToken(rest.replies[i - 1], t) && ConfirmsToken(rest.replies[j - 1], t);
        }
      }
    }
  }

  /** One step of a run: the first reply, then the rest of the run from the new store. */
  lemma RunUnfold(store: map<Token, AID>, self: AID, msgs: seq<Message>, uuids: seq<string>)
    requires |uuids| == |msgs| && msgs != []
    ensures var o := Step(store, self, msgs[0], uuids[0]);
      var rest := Run(o.store, self, msgs[1..], uuids[1..]);
      Run(store, self, msgs, uuids) == Trace(rest.store, [o.reply] + rest.replies)
  {
  }

  /** A batch of n fresh issue requests grows the store by exactly n. */
  lemma {:induction false} IssueBatchSize(store: map<Token, AID>, issued: set<Token>, self: AID,
                                          msgs: seq<Message>, uuids: seq<string>)
    requires |uuids| == |msgs|
    requires store.Keys <= issued
    requires forall k :: 0 <= k < |msgs| ==> IsIssueRequest(msgs[k])
    requires FreshIssuance(issued, msgs, uuids)
    ensures |Run(store, self, msgs, uuids).store| == |store| + |msgs|
    decreases |msgs|
  {
    if msgs != [] {
      var t := CreateToken(uuids[0]);
      var o := Step(store, self, msgs[0], uuids[0]);
      IssueAddsExactlyOne(store, self, msgs[0], uuids[0]);
      IssueBatchSize(o.store, issued + {t}, self, msgs[1..], uuids[1..]);
      RunUnfold(store, self, msgs, uuids);
    }
  }

  /**
   * Each of a batch of fresh issue requests gets a REQUEST reply to its
   * sender carrying a token that was not issued before and is stored at the end.
   */
  lemma {:induction false} IssueBatchReplies(store: map<Token, AID>, issued: set<Token>, self: AID,
                                             msgs: seq<Message>, uuids: seq<string>)
    requires |uuids| == |msgs|
    requires store.Keys <= issued
    requires forall k :: 0 <= k < |msgs| ==> IsIssueRequest(msgs[k])
    requires FreshIssuance(issued, msgs, uuids)
    ensures var r := Run(store, self, msgs, uuids);
      forall k :: 0 <= k < |msgs| ==>
        && r.replies[k].Some? && r.replies[k].value.performative == Request
        && r.replies[k].value.receiver == msgs[k].sender
        && r.replies[k].value.content !in issued
        && r.replies[k].value.content in r.store
    decreases |msgs|
  {
    if msgs != [] {
      var t := CreateToken(uuids[0]);
      var o := Step(store, self, msgs[0], uuids[0]);
      assert o.reply == Some(Message(Request, self, msgs[0].sender, t)) && t in o.store;
      assert o.store.Keys <= issued + {t};
      IssueBatchReplies(o.store, issued + {t}, self, msgs[1..], uuids[1..]);
      RunKeepsKeys(o.store, self, msgs[1..], uuids[1..]);
      RunUnfold(store, self, msgs, uuids);
      var rest := Run(o.store, self, msgs[1..], uuids[1..]);
      var r := Run(store, self, msgs, uuids);
      forall k | 0 < k < |msgs|
        ensures r.replies[k] == rest.replies[k - 1] && msgs[k] == msgs[1..][k - 1]
      {
      }
    }
  }

  /** Every reply carries content, and no two replies carry the same content. */
  ghost predicate DistinctContents(replies: seq<Option<Message>>) {
    (forall i :: 0 <= i < |replies| ==> replies[i].Some?) &&
    forall i, j :: 0 <= i < j < |replies| ==>
      replies[i].Some? && replies[j].Some? && replies[i].value.content != replies[j].value.content
  }

  /** Prepending a reply whose content none of the others carries keeps the contents distinct. */
  lemma DistinctCons(first: Message, rest: seq<Option<Message>>)
    requires DistinctContents(rest)
    requires forall k :: 0 <= k < |rest| ==> rest[k].Some? && rest[k].value.content != first.content
    ensures DistinctContents([Some(first)] + rest)
  {
  }

  /** The tokens handed out for a batch of fresh issue requests are pairwise distinct. */
  lemma {:induction false} IssueBatchDistinct(store: map<Token, AID>, issued: set<Token>, self: AID,
                                              msgs: seq<Message>, uuids: seq<string>)
    requires |uuids| == |msgs|
    requires store.Keys <= issued
    requires forall k :: 0 <= k < |msgs| ==> IsIssueRequest(msgs[k])
    requires FreshIssuance(issued, msgs, uuids)
    ensures DistinctContents(Run(store, self, msgs, uuids).replies)
    decreases |msgs|
  {
    if msgs != [] {
      var t := CreateToken(uuids[0]);
      var o := Step(store, self, msgs[0], uuids[0]);
      IssueAddsExactlyOne(store, self, msgs[0], uuids[0]);
      IssueBatchReplies(o.store, issued + {t}, self, msgs[1..], uuids[1..]);
      IssueBatchDistinct(o.store, issued + {t}, self, msgs[1..], uuids[1..]);
      RunUnfold(store, self, msgs, uuids);
      DistinctCons(o.reply.value, Run(o.store, self, msgs[1..], uuids[1..]).replies);
    }
  }

  /** A run of issue requests only ever adds keys. */
  lemma {:induction false} RunKeepsKeys(store: map<Token, AID>, self: AID, msgs: seq<Message>, uuids: seq<string>)
    requires |uuids| == |msgs|
    requires forall k :: 0 <= k < |msgs| ==> IsIssueRequest(msgs[k])
    ensures store.Keys <= Run(store, self, msgs, uuids).store.Keys
    decreases |msgs|
  {
    if msgs != [] {
      var o := Step(store, self, msgs[0], uuids[0]);
      RunKeepsKeys(o.store, self, msgs[1..], uuids[1..]);
    }
  }
}
