/** The balance-delta extractor of the account indexer: the first token
    balance the transaction changed, as counterparty and absolute amount. */
module BalanceDelta {
  import opened Wrappers
  import opened Ledger

  datatype BalanceChange = BalanceChange(counterparty: Address, amount: nat)

  /** The amount of the first pre-transaction entry with this account index,
      or 0 when the index has no pre-transaction entry. */
  function PreAmount(pre: seq<TokenBalance>, index: int): (amount: int)
    ensures (forall k :: 0 <= k < |pre| ==> pre[k].accountIndex != index) ==> amount == 0
    ensures forall k :: 0 <= k < |pre| && pre[k].accountIndex == index
                        && (forall m :: 0 <= m < k ==> pre[m].accountIndex != index)
                        ==> amount == pre[k].amount
  {
    if pre == [] then 0
    else if pre[0].accountIndex == index then pre[0].amount
    else
      assert forall k :: 1 <= k < |pre| ==> pre[k] == pre[1..][k - 1];
      PreAmount(pre[1..], index)
  }

  /** How much a post-transaction entry moved. */
  function Delta(pre: seq<TokenBalance>, b: TokenBalance): int {
    b.amount - PreAmount(pre, b.accountIndex)
  }

  /** The entry that moves: the first post entry, in list order, with a
      nonzero delta. */
  function FirstChange(pre: seq<TokenBalance>, post: seq<TokenBalance>): (r: Option<BalanceChange>)
    ensures r.Some? ==> r.value.amount > 0
  {
    if post == [] then None
    else
      var diff := Delta(pre, post[0]);
      if diff != 0 then Some(BalanceChange(post[0].owner, if diff > 0 then diff else -diff))
      else FirstChange(pre, post[1..])
  }

  /** Nothing is reported exactly when no entry moves; otherwise the first
      entry that moves is reported, with its owner and the size of its
      delta. */
  lemma {:induction false} FirstChangeIsFirst(pre: seq<TokenBalance>, post: seq<TokenBalance>)
    ensures var r := FirstChange(pre, post);
      && (r.None? <==> forall k :: 0 <= k < |post| ==> Delta(pre, post[k]) == 0)
      && (r.Some? ==>
            exists i :: 0 <= i < |post| && Delta(pre, post[i]) != 0
              && (forall k :: 0 <= k < i ==> Delta(pre, post[k]) == 0)
              && r.value.counterparty == post[i].owner
              && (r.value.amount == Delta(pre, post[i]) || r.value.amount == -Delta(pre, post[i])))
  {
    if post != [] && Delta(pre, post[0]) == 0 {
      var tail := post[1..];
      FirstChangeIsFirst(pre, tail);
      assert forall k :: 1 <= k < |post| ==> post[k] == tail[k - 1];
      var r := FirstChange(pre, post);
      if r.Some? {
        var i :| 0 <= i < |tail| && Delta(pre, tail[i]) != 0
              && (forall k :: 0 <= k < i ==> Delta(pre, tail[k]) == 0)
              && r.value.counterparty == tail[i].owner
              && (r.value.amount == Delta(pre, tail[i]) || r.value.amount == -Delta(pre, tail[i]));
        assert post[i + 1] == tail[i];
      }
    }
  }

  /** `extractTokenBalanceChange`: nothing when either snapshot list is
      absent (an empty list is present). */
  function ExtractTokenBalanceChange(tx: TxInfo): (r: Option<BalanceChange>)
    ensures tx.preTokenBalances.None? || tx.postTokenBalances.None? ==> r.None?
    ensures tx.preTokenBalances.Some? && tx.postTokenBalances.Some? ==>
      r == FirstChange(tx.preTokenBalances.value, tx.postTokenBalances.value)
  {
    match (tx.preTokenBalances, tx.postTokenBalances)
    case (Some(pre), Some(post)) => FirstChange(pre, post)
    case _ => None
  }

  /** A transfer that takes 1000 down to 600 at one index owned by "X" is
      reported as 400 moved with counterparty "X"; the amount is never
      negative. */
  lemma TransferOfFourHundred(tx: TxInfo)
    requires tx.preTokenBalances == Some([TokenBalance(3, "X", 1000)])
    requires tx.postTokenBalances == Some([TokenBalance(3, "X", 600)])
    ensures ExtractTokenBalanceChange(tx) == Some(BalanceChange("X", 400))
  {
    assert Delta([TokenBalance(3, "X", 1000)], TokenBalance(3, "X", 600)) == -400;
  }
}
