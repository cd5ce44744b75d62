/** The indexing entry point of the account service, over the mirror's three
    tables. One call works on a pending copy of the tables (the unit of work:
    its own reads see its own writes) and assigns it back once, at the
    flush; a thrown exception is caught and leaves the tables untouched. */
module AccountIndexer {
  import opened Wrappers
  import opened Ledger
  import opened Entities
  import opened MirrorStore
  import opened LogClassifier
  import opened StateDiffer
  import opened BalanceDelta
  import opened Reconciler

  class AccountService {
    var accounts: map<Address, AccountRow>
    var operators: seq<OperatorRow>
    var events: seq<EventRow>

    /** The tables as one value. */
    function State(): Store
      reads this
    {
      Store(accounts, operators, events)
    }

    constructor ()
      ensures State() == Store(map[], [], [])
    {
      accounts, operators, events := map[], [], [];
    }

    /** `indexSilkysigTx(txid, txInfo)`, with `chain` standing for what the
        program client fetches. */
    method IndexSilkysigTx(txid: string, tx: TxInfo, chain: Chain)
      modifies this
      ensures State() == Indexed(old(State()), txid, tx, chain)
      ensures old(Inv(State())) ==> Inv(State())
    {
      ghost var valid := Inv(State());
      if valid {
        IndexedKeeps(State(), txid, tx, chain);
      }
      var kinds := ParseSilkysigEvents(tx.logMessages);
      if |kinds| == 0 {
        return;
      }
      if tx.accountKeys.None? {
        return;
      }
      var keys := tx.accountKeys.value;
      if |keys| == 0 {
        // `new PublicKey(accountKeys[0])` throws on `undefined`
        return;
      }
      var actor := keys[0];

      var located := LocateAccount(kinds, keys, chain);
      if located.None? {
        return;
      }
      var (pda, snapshot) := located.value;

      var w := State();
      if pda !in w.accounts {
        if snapshot.None? {
          return;
        }
        w := w.(accounts := w.accounts[pda := NewAccount(snapshot.value)]);
      }
      var r := Process(w, Context(txid, actor, pda, snapshot, tx), kinds);
      if r.Err? {
        return;
      }
      accounts, operators, events := r.value.accounts, r.value.operators, r.value.events;
    }

    /** The managed account the transaction concerns: the first key fetched
        from the chain, or, for a closing transaction, the first key
        mirrored locally. */
    method LocateAccount(kinds: seq<EventKind>, keys: seq<Address>, chain: Chain)
      returns (located: Option<(Address, Option<OnChainAccount>)>)
      ensures located == Locate(kinds, keys, chain, accounts)
    {
      var found := LocateOnChain(keys, chain);
      if found.Some? {
        return Some((found.value.0, Some(found.value.1)));
      }
      if AccountClosed !in kinds {
        return None;
      }
      var stored := LocateInStore(keys);
      if stored.None? {
        return None;
      }
      return Some((stored.value, None));
    }

    /** The loop over the kinds and the create-time resync, on the pending
        tables. */
    static method Process(w0: Store, c: Context, kinds: seq<EventKind>) returns (r: Result<Store, Fault>)
      ensures r == Work(w0, c, kinds)
    {
      var w := w0;
      var i := 0;
      while i < |kinds|
        invariant 0 <= i <= |kinds|
        invariant ApplyKinds(w0, c, kinds) == ApplyKinds(w, c, kinds[i..])
      {
        assert kinds[i..][0] == kinds[i] && kinds[i..][1..] == kinds[i + 1..];
        var step := ApplyEvent(w, c, kinds[i]);
        if step.Err? {
          return Err(step.error);
        }
        w := step.value;
        i := i + 1;
      }
      assert ApplyKinds(w0, c, kinds) == Ok(w);

      if AccountCreated in kinds && c.snapshot.Some? {
        var a := c.snapshot.value;
        ghost var w2 := w;
        var j := 0;
        while j < a.operatorCount
          invariant ResyncFrom(w2, c.pda, a, 0) == ResyncFrom(w, c.pda, a, j)
          decreases a.operatorCount - j
        {
          if j >= |a.operators| {
            // `onChainAccount.operators[j].pubkey` on an undefined slot throws
            return Err(UndefinedSlot);
          }
          w := AddOperatorRow(w, c.pda, a.operators[j]);
          j := j + 1;
        }
      }
      return Ok(w);
    }

    /** The first account key that the program client fetches as a managed
        account. */
    static method LocateOnChain(keys: seq<Address>, chain: Chain) returns (r: Option<(Address, OnChainAccount)>)
      ensures r == FirstOnChain(keys, chain)
    {
      var i := 0;
      while i < |keys|
        invariant 0 <= i <= |keys|
        invariant FirstOnChain(keys, chain) == FirstOnChain(keys[i..], chain)
      {
        assert keys[i..][0] == keys[i] && keys[i..][1..] == keys[i + 1..];
        if keys[i] in chain {
          return Some((keys[i], chain[keys[i]]));
        }
        i := i + 1;
      }
      return None;
    }

    /** The first account key that is the pda of a mirrored account. */
    method LocateInStore(keys: seq<Address>) returns (r: Option<Address>)
      ensures r == FirstStored(keys, accounts)
    {
      var i := 0;
      while i < |keys|
        invariant 0 <= i <= |keys|
        invariant FirstStored(keys, accounts) == FirstStored(keys[i..], accounts)
      {
        assert keys[i..][0] == keys[i] && keys[i..][1..] == keys[i + 1..];
        if keys[i] in accounts {
          return Some(keys[i]);
        }
        i := i + 1;
      }
      return None;
    }

    /** One case of the `switch`, and the event row it ends with, on the
        pending tables `w`. */
    static method ApplyEvent(w: Store, c: Context, kind: EventKind) returns (r: Result<Store, Fault>)
      ensures r == ApplyKind(w, c, kind)
    {
      var resolved := kind;
      var data: Option<EventData> := None;
      var m := w;
      match kind {
        case AccountCreated =>
          m := SetStatus(m, c.pda, Active);
        case AccountClosed =>
          m := SetStatus(m, c.pda, Closed);
          var ops := RemoveAll(w.operators, c.pda);
          m := m.(operators := ops);
        case OperatorAdded =>
          if c.snapshot.Some? {
            var newOp := FindNewOperator(c.snapshot.value);
            if newOp.Err? {
              return Err(newOp.error);
            }
            if newOp.value.Some? {
              var slot := newOp.value.value;
              data := Some(OperatorPayload(slot.pubkey, slot.perTxLimit));
              m := AddOperatorRow(m, c.pda, slot);
            }
          }
        case OperatorRemoved =>
          if c.snapshot.Some? {
            var removed := FindRemovedOperator(RowsOf(w.operators, c.pda), c.snapshot.value);
            if removed.Err? {
              return Err(removed.error);
            }
            if removed.value.Some? {
              var row := removed.value.value;
              data := Some(RemovedPayload(row.operator));
              m := m.(operators := ExceptSet(m.operators, {row}));
            }
          }
        case Transfer =>
          var amounts := ExtractTokenBalanceChange(c.tx);
          if amounts.Some? {
            data := Some(TransferPayload(amounts.value.counterparty, amounts.value.amount));
          }
        case Deposit =>
          var amounts := ExtractTokenBalanceChange(c.tx);
          if amounts.Some? {
            data := Some(DepositPayload(amounts.value.counterparty, amounts.value.amount));
          }
        case Paused =>
          if c.snapshot.Some? {
            resolved := if c.snapshot.value.isPaused then Paused else Unpaused;
          }
        case Unpaused =>
      }
      return Ok(Record(m, c, resolved, data));
    }

    /** The close case's loop: every row `find({ account })` returns is
        removed from the pending tables. */
    static method RemoveAll(rows: seq<OperatorRow>, account: Address) returns (ops: seq<OperatorRow>)
      ensures ops == DropAccount(rows, account)
    {
      var doomed := RowsOf(rows, account);
      ops := rows;
      ExceptNothing(rows);
      for j := 0 to |doomed|
        invariant ops == ExceptSet(rows, Elems(doomed[..j]))
      {
        ExceptTwice(rows, Elems(doomed[..j]), {doomed[j]});
        ElemsSnoc(doomed, j);
        ops := ExceptSet(ops, {doomed[j]});
      }
      assert doomed[..|doomed|] == doomed;
      ElemsRowsOf(rows, account);
    }
  }
}
