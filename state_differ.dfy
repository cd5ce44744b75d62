/** The state differ of the account indexer: which operator an add or a
    remove instruction concerns, found by comparing the post-transaction
    snapshot with the mirrored operator rows. */
module StateDiffer {
  import opened Wrappers
  import opened Ledger
  import opened Entities

  /** The exception raised by dereferencing a slot past the end of the slot
      array (`operators[i]` is undefined); the indexer swallows it. */
  datatype Fault = UndefinedSlot

  /** `findNewOperator`: the newest operator is taken to be the last slot in
      use. */
  function FindNewOperator(a: OnChainAccount): (r: Result<Option<Slot>, Fault>)
    ensures r == Ok(None) <==> a.operatorCount == 0
    ensures r.Err? <==> a.operatorCount > 0 && !SlotsReadable(a)
    ensures r.Ok? && r.value.Some? ==>
      0 < a.operatorCount <= |a.operators| && r.value.value == a.operators[a.operatorCount - 1]
  {
    if a.operatorCount == 0 then Ok(None)
    else if a.operatorCount - 1 < |a.operators| then Ok(Some(a.operators[a.operatorCount - 1]))
    else Err(UndefinedSlot)
  }

  /** The addresses in the slots in use. */
  function OnChainOperators(a: OnChainAccount): set<Address>
    requires SlotsReadable(a)
  {
    set k | 0 <= k < a.operatorCount :: a.operators[k].pubkey
  }

  /** The first row, in row order, whose operator is not in `present`. */
  function FirstAbsent(rows: seq<OperatorRow>, present: set<Address>): (r: Option<OperatorRow>)
    ensures r.None? <==> forall k :: 0 <= k < |rows| ==> rows[k].operator in present
    ensures r.Some? ==>
      exists i :: 0 <= i < |rows| && rows[i] == r.value && r.value.operator !in present
        && forall k :: 0 <= k < i ==> rows[k].operator in present
  {
    if rows == [] then None
    else if rows[0].operator !in present then Some(rows[0])
    else
      var r := FirstAbsent(rows[1..], present);
      assert forall k :: 1 <= k < |rows| ==> rows[k] == rows[1..][k - 1];
      r
  }

  /** What `findRemovedOperator` yields for the account's rows `stored`. */
  function RemovedOperator(stored: seq<OperatorRow>, a: OnChainAccount): (r: Result<Option<OperatorRow>, Fault>)
    ensures r.Err? <==> !SlotsReadable(a)
    ensures r == Ok(None) <==>
      SlotsReadable(a) && forall k :: 0 <= k < |stored| ==> stored[k].operator in OnChainOperators(a)
    ensures r.Ok? && r.value.Some? ==>
      && SlotsReadable(a)
      && r.value.value in stored
      && forall j :: 0 <= j < a.operatorCount ==> a.operators[j].pubkey != r.value.value.operator
  {
    if SlotsReadable(a) then Ok(FirstAbsent(stored, OnChainOperators(a))) else Err(UndefinedSlot)
  }

  /** `findRemovedOperator`: collect the on-chain operators into a set, then
      return the first stored row whose operator is not among them. */
  method FindRemovedOperator(stored: seq<OperatorRow>, a: OnChainAccount)
    returns (r: Result<Option<OperatorRow>, Fault>)
    ensures r == RemovedOperator(stored, a)
  {
    var onChain: set<Address> := {};
    for i := 0 to a.operatorCount
      invariant i <= |a.operators|
      invariant onChain == set k | 0 <= k < i :: a.operators[k].pubkey
    {
      if i >= |a.operators| {
        return Err(UndefinedSlot);
      }
      onChain := onChain + {a.operators[i].pubkey};
    }
    for j := 0 to |stored|
      invariant forall k :: 0 <= k < j ==> stored[k].operator in onChain
    {
      if stored[j].operator !in onChain {
        return Ok(Some(stored[j]));
      }
    }
    return Ok(None);
  }
}
