/** The transactions of a shard block, as far as external messages go. */
module Transactions {
  import opened Words
  import opened Wrappers
  import opened Shards
  import opened MessagesQueue

  datatype InMessage = InMessage(external: bool, hash: seq<Byte>)

  datatype Transaction = Transaction(ordinary: bool, aborted: bool, inMsg: Option<InMessage>)

  datatype AccountTransaction = AccountTransaction(account: Account, transaction: Transaction)

  /** The transaction executed an external message. */
  predicate Executed(tx: Transaction) {
    tx.ordinary && !tx.aborted && tx.inMsg.Some? && tx.inMsg.value.external
  }

  /** The external messages that were executed, in order. */
  function ExecutedMessages(transactions: seq<AccountTransaction>): seq<MessageId> {
    if transactions == [] then []
    else
      var first := transactions[0];
      (if Executed(first.transaction) then [MessageId(first.account, first.transaction.inMsg.value.hash)] else []) +
      ExecutedMessages(transactions[1..])
  }

  /** A message counts as executed exactly if an ordinary transaction of its account had it as external input and was not aborted. */
  lemma {:induction false} ExecutedExactly(transactions: seq<AccountTransaction>, id: MessageId)
    ensures id in ExecutedMessages(transactions) <==>
              exists j :: 0 <= j < |transactions| &&
                transactions[j] == AccountTransaction(id.account, Transaction(true, false, Some(InMessage(true, id.messageHash))))
  {
    if transactions != [] {
      var rest := transactions[1..];
      ExecutedExactly(rest, id);
      var wanted := AccountTransaction(id.account, Transaction(true, false, Some(InMessage(true, id.messageHash))));
      if j :| 0 <= j < |rest| && rest[j] == wanted {
        assert transactions[j + 1] == wanted;
      }
      if j :| 0 < j < |transactions| && transactions[j] == wanted {
        assert rest[j - 1] == wanted;
      }
    }
  }
}
