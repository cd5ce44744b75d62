/** The reconciler of the account indexer, as functions of the mirror: how one
    transaction record changes the mirrored accounts, operators and events,
    and what it keeps. A thrown exception abandons the whole call: the
    result is then the mirror as it was. */
module Reconciler {
  import opened Wrappers
  import opened Ledger
  import opened Entities
  import opened MirrorStore
  import opened LogClassifier
  import opened StateDiffer
  import opened BalanceDelta

  /** What every per-event step of one call knows: the transaction id, the
      actor (`accountKeys[0]`), the located account, the snapshot fetched
      for it (none when the account was found in the mirror only) and the
      transaction record. */
  datatype Context = Context(
    txid: string,
    actor: Address,
    pda: Address,
    snapshot: Option<OnChainAccount>,
    tx: TxInfo)

  // ---- Account locator ----

  /** The first key the program client fetches as a managed account,
      with the fetched snapshot. */
  function FirstOnChain(keys: seq<Address>, chain: Chain): (r: Option<(Address, OnChainAccount)>)
    ensures r.Some? ==> r.value.0 in keys && r.value.0 in chain && chain[r.value.0] == r.value.1
  {
    if keys == [] then None
    else if keys[0] in chain then Some((keys[0], chain[keys[0]]))
    else FirstOnChain(keys[1..], chain)
  }

  /** The first key that is the pda of a mirrored account. */
  function FirstStored(keys: seq<Address>, accounts: map<Address, AccountRow>): (r: Option<Address>)
    ensures r.Some? ==> r.value in keys
  {
    if keys == [] then None
    else if keys[0] in accounts then Some(keys[0])
    else FirstStored(keys[1..], accounts)
  }

  /** The located account and its snapshot; the mirror is searched only when
      the transaction closes an account. */
  function Locate(kinds: seq<EventKind>, keys: seq<Address>, chain: Chain,
                  accounts: map<Address, AccountRow>): (r: Option<(Address, Option<OnChainAccount>)>)
    ensures r.Some? ==> r.value.0 in keys
    ensures r.Some? && r.value.1.Some? ==> r.value.0 in chain && chain[r.value.0] == r.value.1.value
    ensures r.Some? && r.value.1.None? ==> AccountClosed in kinds
  {
    match FirstOnChain(keys, chain)
    case Some((pda, a)) => Some((pda, Some(a)))
    case None =>
      if AccountClosed !in kinds then None
      else match FirstStored(keys, accounts)
        case None => None
        case Some(pda) => Some((pda, None))
  }

  lemma {:induction false} FirstOnChainIsFirst(keys: seq<Address>, chain: Chain)
    ensures FirstOnChain(keys, chain).None? <==> forall k :: 0 <= k < |keys| ==> keys[k] !in chain
    ensures FirstOnChain(keys, chain).Some? ==>
      var (pda, a) := FirstOnChain(keys, chain).value;
      exists i :: 0 <= i < |keys| && keys[i] == pda && pda in chain && chain[pda] == a
        && forall k :: 0 <= k < i ==> keys[k] !in chain
  {
    if keys != [] && keys[0] !in chain {
      FirstOnChainIsFirst(keys[1..], chain);
      assert forall k :: 1 <= k < |keys| ==> keys[k] == keys[1..][k - 1];
      if FirstOnChain(keys, chain).Some? {
        var (pda, a) := FirstOnChain(keys, chain).value;
        var i :| 0 <= i < |keys[1..]| && keys[1..][i] == pda && pda in chain && chain[pda] == a
                  && forall k :: 0 <= k < i ==> keys[1..][k] !in chain;
        assert keys[i + 1] == pda;
      }
    }
  }

  lemma {:induction false} FirstStoredIsFirst(keys: seq<Address>, accounts: map<Address, AccountRow>)
    ensures FirstStored(keys, accounts).None? <==> forall k :: 0 <= k < |keys| ==> keys[k] !in accounts
    ensures FirstStored(keys, accounts).Some? ==>
      exists i :: 0 <= i < |keys| && keys[i] == FirstStored(keys, accounts).value
        && keys[i] in accounts && forall k :: 0 <= k < i ==> keys[k] !in accounts
  {
    if keys != [] && keys[0] !in accounts {
      FirstStoredIsFirst(keys[1..], accounts);
      assert forall k :: 1 <= k < |keys| ==> keys[k] == keys[1..][k - 1];
      if FirstStored(keys, accounts).Some? {
        var i :| 0 <= i < |keys[1..]| && keys[1..][i] == FirstStored(keys, accounts).value
                  && keys[1..][i] in accounts && forall k :: 0 <= k < i ==> keys[1..][k] !in accounts;
        assert keys[i + 1] == keys[1..][i];
      }
    }
  }

  /** The locator finds the first key fetched from the chain, with its
      snapshot; only when no key is fetched and the transaction closes an
      account does it take the first key mirrored locally, without a
      snapshot. */
  lemma LocateFindsFirst(kinds: seq<EventKind>, keys: seq<Address>, chain: Chain,
                         accounts: map<Address, AccountRow>)
    ensures var r := Locate(kinds, keys, chain, accounts);
      && (r.Some? && r.value.1.Some? ==>
            var (pda, a) := (r.value.0, r.value.1.value);
            exists i :: 0 <= i < |keys| && keys[i] == pda && pda in chain && chain[pda] == a
              && forall k :: 0 <= k < i ==> keys[k] !in chain)
      && (r.Some? && r.value.1.None? ==>
            && AccountClosed in kinds
            && (forall k :: 0 <= k < |keys| ==> keys[k] !in chain)
            && exists i :: 0 <= i < |keys| && keys[i] == r.value.0 && keys[i] in accounts
                 && forall k :: 0 <= k < i ==> keys[k] !in accounts)
      && (r.None? <==>
            && (forall k :: 0 <= k < |keys| ==> keys[k] !in chain)
            && (AccountClosed !in kinds || forall k :: 0 <= k < |keys| ==> keys[k] !in accounts))
  {
    FirstOnChainIsFirst(keys, chain);
    FirstStoredIsFirst(keys, accounts);
  }

  // ---- One step per event kind ----

  /** The row created for an account first seen on chain. */
  function NewAccount(a: OnChainAccount): AccountRow {
    AccountRow(a.owner, a.mint, Active)
  }

  function SetStatus(s: Store, pda: Address, status: Status): Store {
    if pda in s.accounts then s.(accounts := s.accounts[pda := s.accounts[pda].(status := status)])
    else s
  }

  /** Insert the slot's operator unless `findOne` already finds the pair. */
  function AddOperatorRow(s: Store, pda: Address, slot: Slot): Store {
    if HasOperator(s.operators, pda, slot.pubkey) then s
    else s.(operators := s.operators + [OperatorRow(pda, slot.pubkey, slot.perTxLimit)])
  }

  /** A pause toggle is recorded as the snapshot's flag says, and as
      `Paused` when there is no snapshot. */
  function Resolved(kind: EventKind, snapshot: Option<OnChainAccount>): (r: EventKind)
    ensures kind != Paused ==> r == kind
    ensures kind == Paused && snapshot.None? ==> r == Paused
    ensures kind == Paused && snapshot.Some? ==>
      (r == Paused <==> snapshot.value.isPaused) && (r == Unpaused <==> !snapshot.value.isPaused)
  {
    if kind == Paused && snapshot.Some? && !snapshot.value.isPaused then Unpaused else kind
  }

  function Record(s: Store, c: Context, kind: EventKind, data: Option<EventData>): Store {
    s.(events := s.events + [EventRow(c.pda, kind, c.txid, c.actor, data)])
  }

  /** The `switch` on one kind: the mirror it leaves and the event data it
      prepares, or the fault it throws. */
  function Dispatch(s: Store, c: Context, kind: EventKind): (r: Result<(Store, Option<EventData>), Fault>)
    // the `switch` writes no event row
    ensures r.Ok? ==> r.value.0.events == s.events
    // only the operator cases throw, and only on an undefined slot
    ensures r.Err? ==>
      (kind == OperatorAdded || kind == OperatorRemoved) && c.snapshot.Some? && !SlotsReadable(c.snapshot.value)
  {
    match kind
    case AccountCreated =>
      Ok((SetStatus(s, c.pda, Active), None))
    case AccountClosed =>
      var closed := SetStatus(s, c.pda, Closed);
      Ok((closed.(operators := DropAccount(s.operators, c.pda)), None))
    case OperatorAdded =>
      if c.snapshot.None? then Ok((s, None))
      else (match FindNewOperator(c.snapshot.value)
        case Err(f) => Err(f)
        case Ok(None) => Ok((s, None))
        case Ok(Some(slot)) =>
          Ok((AddOperatorRow(s, c.pda, slot), Some(OperatorPayload(slot.pubkey, slot.perTxLimit)))))
    case OperatorRemoved =>
      if c.snapshot.None? then Ok((s, None))
      else (match RemovedOperator(RowsOf(s.operators, c.pda), c.snapshot.value)
        case Err(f) => Err(f)
        case Ok(None) => Ok((s, None))
        case Ok(Some(row)) =>
          Ok((s.(operators := ExceptSet(s.operators, {row})), Some(RemovedPayload(row.operator)))))
    case Transfer =>
      (match ExtractTokenBalanceChange(c.tx)
        case None => Ok((s, None))
        case Some(b) => Ok((s, Some(TransferPayload(b.counterparty, b.amount)))))
    case Deposit =>
      (match ExtractTokenBalanceChange(c.tx)
        case None => Ok((s, None))
        case Some(b) => Ok((s, Some(DepositPayload(b.counterparty, b.amount)))))
    case Paused => Ok((s, None))
    case Unpaused => Ok((s, None))
  }

  /** One kind: the `switch`, then the event row with the resolved kind. */
  function ApplyKind(s: Store, c: Context, kind: EventKind): (r: Result<Store, Fault>)
    ensures r.Ok? ==>
      && |r.value.events| == |s.events| + 1
      && r.value.events[..|s.events|] == s.events
      && RecordsKind(r.value.events[|s.events|], c, kind)
  {
    match Dispatch(s, c, kind)
    case Err(f) => Err(f)
    case Ok((m, data)) =>
      DispatchEffect(s, c, kind, m, data);
      Ok(Record(m, c, Resolved(kind, c.snapshot), data))
  }

  /** The kinds applied in order; the first exception abandons the rest. */
  function ApplyKinds(s: Store, c: Context, kinds: seq<EventKind>): (r: Result<Store, Fault>)
    ensures r.Ok? ==> |r.value.events| == |s.events| + |kinds|
    decreases |kinds|
  {
    if kinds == [] then Ok(s)
    else match ApplyKind(s, c, kinds[0])
      case Err(f) => Err(f)
      case Ok(s') => ApplyKinds(s', c, kinds[1..])
  }

  /** The create-time resync of slots `i` onwards. */
  function ResyncFrom(s: Store, pda: Address, a: OnChainAccount, i: nat): (r: Result<Store, Fault>)
    ensures r.Ok? ==> r.value.accounts == s.accounts && r.value.events == s.events
    ensures r.Ok? ==> |s.operators| <= |r.value.operators|
    ensures r.Err? <==> i < a.operatorCount && !SlotsReadable(a)
    decreases a.operatorCount - i
  {
    if i >= a.operatorCount then Ok(s)
    else if i >= |a.operators| then Err(UndefinedSlot)
    else ResyncFrom(AddOperatorRow(s, pda, a.operators[i]), pda, a, i + 1)
  }

  function Resync(s: Store, c: Context, kinds: seq<EventKind>): (r: Result<Store, Fault>)
    ensures r.Err? ==> AccountCreated in kinds && c.snapshot.Some? && !SlotsReadable(c.snapshot.value)
    ensures r.Ok? ==> r.value.accounts == s.accounts && r.value.events == s.events
  {
    if AccountCreated in kinds && c.snapshot.Some? then ResyncFrom(s, c.pda, c.snapshot.value, 0)
    else Ok(s)
  }

  // ---- The whole call ----

  /** The changes of one call up to the flush: every kind, then the resync. */
  function Work(s: Store, c: Context, kinds: seq<EventKind>): (r: Result<Store, Fault>)
    ensures r.Ok? ==> |r.value.events| == |s.events| + |kinds|
  {
    match ApplyKinds(s, c, kinds)
    case Err(f) => Err(f)
    case Ok(s2) => Resync(s2, c, kinds)
  }

  /** The mirror after `indexSilkysigTx(txid, tx)` against `chain`. */
  function Indexed(s: Store, txid: string, tx: TxInfo, chain: Chain): (r: Store)
    ensures Classify(tx.logMessages) == [] ==> r == s
    ensures tx.accountKeys.None? ==> r == s
    ensures (tx.accountKeys.Some? && FirstOnChain(tx.accountKeys.value, chain).None?
             && AccountClosed !in Classify(tx.logMessages)) ==> r == s
  {
    var kinds := Classify(tx.logMessages);
    if kinds == [] then s
    else match tx.accountKeys
      case None => s
      case Some(keys) =>
        if keys == [] then s
        else match Locate(kinds, keys, chain, s.accounts)
          case None => s
          case Some((pda, snapshot)) =>
            if pda !in s.accounts && snapshot.None? then s
            else
              var s1 := if pda in s.accounts then s
                        else s.(accounts := s.accounts[pda := NewAccount(snapshot.value)]);
              match Work(s1, Context(txid, keys[0], pda, snapshot, tx), kinds)
              case Err(_) => s
              case Ok(s3) => s3
  }

  // ---- What a step keeps ----

  /** The event row a step appends for `kind`. */
  predicate RecordsKind(e: EventRow, c: Context, kind: EventKind) {
    && e.account == c.pda && e.txid == c.txid && e.actor == c.actor && e.kind == Resolved(kind, c.snapshot)
    && RecordsData(e.data, c, kind)
  }

  /** The payload of a step's row: the balance change for a transfer or a
      deposit, the newest slot for an operator add, a removed operator (if
      one was found) for a remove, and nothing for the other kinds. */
  predicate RecordsData(data: Option<EventData>, c: Context, kind: EventKind) {
    match kind
    case Transfer =>
      (match ExtractTokenBalanceChange(c.tx)
        case None => data == None
        case Some(b) => data == Some(TransferPayload(b.counterparty, b.amount)))
    case Deposit =>
      (match ExtractTokenBalanceChange(c.tx)
        case None => data == None
        case Some(b) => data == Some(DepositPayload(b.counterparty, b.amount)))
    case OperatorAdded =>
      if c.snapshot.Some? && FindNewOperator(c.snapshot.value).Ok? && FindNewOperator(c.snapshot.value).value.Some?
      then
        var slot := FindNewOperator(c.snapshot.value).value.value;
        data == Some(OperatorPayload(slot.pubkey, slot.perTxLimit))
      else data == None
    case OperatorRemoved => data.None? || data.value.RemovedPayload?
    case _ => data == None
  }

  /** What each case of the `switch` leaves. Only the located account's
      status changes, and only for a create (`ACTIVE`) or a close
      (`CLOSED`); a close drops the account's operator rows; an add inserts
      the newest slot's operator unless the pair is already there; a remove
      deletes the stored row of the account whose operator is in no slot in
      use; every other case leaves the tables alone. */
  lemma DispatchEffect(s: Store, c: Context, kind: EventKind, m: Store, data: Option<EventData>)
    requires Dispatch(s, c, kind) == Ok((m, data))
    ensures RecordsData(data, c, kind)
    ensures m.events == s.events
    // the accounts
    ensures m.accounts.Keys == s.accounts.Keys
    ensures forall p :: p in s.accounts && p != c.pda ==> m.accounts[p] == s.accounts[p]
    ensures kind == AccountCreated && c.pda in s.accounts ==> m.accounts[c.pda] == s.accounts[c.pda].(status := Active)
    ensures kind == AccountClosed && c.pda in s.accounts ==> m.accounts[c.pda] == s.accounts[c.pda].(status := Closed)
    ensures kind != AccountCreated && kind != AccountClosed ==> m.accounts == s.accounts
    // the operator rows
    ensures kind == AccountClosed ==> forall x :: x in m.operators <==> x in s.operators && x.account != c.pda
    ensures kind == OperatorAdded && data.Some? ==>
      var slot := FindNewOperator(c.snapshot.value).value.value;
      && data == Some(OperatorPayload(slot.pubkey, slot.perTxLimit))
      && HasOperator(m.operators, c.pda, slot.pubkey)
      && (HasOperator(s.operators, c.pda, slot.pubkey) ==> m.operators == s.operators)
      && (!HasOperator(s.operators, c.pda, slot.pubkey) ==>
            m.operators == s.operators + [OperatorRow(c.pda, slot.pubkey, slot.perTxLimit)])
    ensures kind == OperatorRemoved && data.Some? ==>
      var row := RemovedOperator(RowsOf(s.operators, c.pda), c.snapshot.value).value.value;
      && data == Some(RemovedPayload(row.operator))
      && row in s.operators && row.account == c.pda
      && (forall j :: 0 <= j < c.snapshot.value.operatorCount ==> c.snapshot.value.operators[j].pubkey != row.operator)
      && m.operators == ExceptSet(s.operators, {row})
    ensures kind != AccountClosed && data.None? ==> m.operators == s.operators
  {
    if kind == OperatorAdded && data.Some? {
      AddRowHas(s, c.pda, FindNewOperator(c.snapshot.value).value.value);
    }
  }

  /** One kind is its `switch` followed by exactly one event row, carrying
      the resolved kind and the payload the `switch` prepared. */
  lemma ApplyKindEffect(s: Store, c: Context, kind: EventKind)
    ensures ApplyKind(s, c, kind).Ok? <==> Dispatch(s, c, kind).Ok?
    ensures ApplyKind(s, c, kind).Ok? ==>
      var (m, data) := Dispatch(s, c, kind).value;
      var r := ApplyKind(s, c, kind).value;
      && r.accounts == m.accounts && r.operators == m.operators
      && r.events == s.events + [EventRow(c.pda, Resolved(kind, c.snapshot), c.txid, c.actor, data)]
  {
  }

  lemma DropKeeps(s: Store, pda: Address)
    requires Inv(s)
    ensures Inv(SetStatus(s, pda, Closed).(operators := DropAccount(s.operators, pda)))
  {
    ExceptUnique(s.operators, set x | x in s.operators && x.account == pda);
    var ops := DropAccount(s.operators, pda);
    assert forall k :: 0 <= k < |ops| ==> ops[k] in s.operators;
  }

  lemma AddRowKeeps(s: Store, pda: Address, slot: Slot)
    requires Inv(s) && pda in s.accounts
    ensures Inv(AddOperatorRow(s, pda, slot))
    ensures HasOperator(AddOperatorRow(s, pda, slot).operators, pda, slot.pubkey)
  {
    if !HasOperator(s.operators, pda, slot.pubkey) {
      var x := OperatorRow(pda, slot.pubkey, slot.perTxLimit);
      AppendUnique(s.operators, x);
      assert (s.operators + [x])[|s.operators|] == x;
    }
  }

  lemma ExceptKeeps(s: Store, row: OperatorRow)
    requires Inv(s)
    ensures Inv(s.(operators := ExceptSet(s.operators, {row})))
  {
    ExceptUnique(s.operators, {row});
    var ops := ExceptSet(s.operators, {row});
    assert forall k :: 0 <= k < |ops| ==> ops[k] in s.operators;
  }

  /** The `switch` keeps the schema's constraints, the account keys and
      the events. */
  lemma DispatchKeeps(s: Store, c: Context, kind: EventKind)
    requires Inv(s) && c.pda in s.accounts
    ensures Dispatch(s, c, kind).Ok? ==>
      var m := Dispatch(s, c, kind).value.0;
      Inv(m) && m.accounts.Keys == s.accounts.Keys && m.events == s.events
  {
    match kind {
      case AccountClosed => DropKeeps(s, c.pda);
      case OperatorAdded =>
        if c.snapshot.Some? && FindNewOperator(c.snapshot.value).Ok?
           && FindNewOperator(c.snapshot.value).value.Some? {
          AddRowKeeps(s, c.pda, FindNewOperator(c.snapshot.value).value.value);
        }
      case OperatorRemoved =>
        if c.snapshot.Some? && RemovedOperator(RowsOf(s.operators, c.pda), c.snapshot.value).Ok?
           && RemovedOperator(RowsOf(s.operators, c.pda), c.snapshot.value).value.Some? {
          ExceptKeeps(s, RemovedOperator(RowsOf(s.operators, c.pda), c.snapshot.value).value.value);
        }
      case _ =>
    }
  }

  /** Appending the event row of a step keeps the constraints. */
  lemma RecordExtends(s: Store, m: Store, c: Context, kind: EventKind, data: Option<EventData>)
    requires Inv(m) && c.pda in m.accounts && m.accounts.Keys == s.accounts.Keys && m.events == s.events
    requires RecordsData(data, c, kind)
    ensures Extends(s, Record(m, c, Resolved(kind, c.snapshot), data), c, [kind])
  {
    var r := Record(m, c, Resolved(kind, c.snapshot), data);
    assert r.events[..|s.events|] == s.events;
    assert r.events[|s.events|] == EventRow(c.pda, Resolved(kind, c.snapshot), c.txid, c.actor, data);
  }

  /** One step keeps the schema's constraints and the account keys, and
      appends exactly one event row for its kind. */
  lemma ApplyKindKeeps(s: Store, c: Context, kind: EventKind)
    requires Inv(s) && c.pda in s.accounts
    ensures ApplyKind(s, c, kind).Ok? ==> Extends(s, ApplyKind(s, c, kind).value, c, [kind])
  {
    if Dispatch(s, c, kind).Ok? {
      var (m, data) := Dispatch(s, c, kind).value;
      DispatchKeeps(s, c, kind);
      DispatchEffect(s, c, kind, m, data);
      RecordExtends(s, m, c, kind, data);
    }
  }

  /** `r` is `s` with the account keys and the schema's constraints kept and
      one event row per kind of `kinds` appended, in order. */
  ghost predicate Extends(s: Store, r: Store, c: Context, kinds: seq<EventKind>) {
    && Inv(r)
    && r.accounts.Keys == s.accounts.Keys
    && |r.events| == |s.events| + |kinds|
    && r.events[..|s.events|] == s.events
    && forall i :: 0 <= i < |kinds| ==> RecordsKind(r.events[|s.events| + i], c, kinds[i])
  }

  lemma ExtendsTrans(s: Store, m: Store, r: Store, c: Context, kind: EventKind, kinds: seq<EventKind>)
    requires Extends(s, m, c, [kind]) && Extends(m, r, c, kinds)
    ensures Extends(s, r, c, [kind] + kinds)
  {
    var n := |s.events|;
    assert r.events[..n] == m.events[..n] by {
      assert r.events[..n] == r.events[..n + 1][..n];
    }
    assert r.events[n] == m.events[n];
    var all := [kind] + kinds;
    forall i | 0 <= i < |all| ensures RecordsKind(r.events[n + i], c, all[i]) {
      if i > 0 {
        assert all[i] == kinds[i - 1];
      }
    }
  }

  /** The kinds applied in order keep the schema's constraints and the
      account keys, and append exactly one event row per kind, in order,
      after the old events. */
  lemma {:induction false} ApplyKindsKeeps(s: Store, c: Context, kinds: seq<EventKind>)
    requires Inv(s) && c.pda in s.accounts
    ensures ApplyKinds(s, c, kinds).Ok? ==> Extends(s, ApplyKinds(s, c, kinds).value, c, kinds)
    decreases |kinds|
  {
    if kinds == [] {
      assert s.events[..|s.events|] == s.events;
    } else if ApplyKind(s, c, kinds[0]).Ok? {
      var m := ApplyKind(s, c, kinds[0]).value;
      ApplyKindKeeps(s, c, kinds[0]);
      ApplyKindsKeeps(m, c, kinds[1..]);
      if ApplyKinds(m, c, kinds[1..]).Ok? {
        ExtendsTrans(s, m, ApplyKinds(m, c, kinds[1..]).value, c, kinds[0], kinds[1..]);
        assert [kinds[0]] + kinds[1..] == kinds;
      }
    }
  }

  /** The create-time resync keeps the accounts, the events and the rows
      already there, keeps the schema's constraints, and leaves every slot
      from `i` up to `operatorCount` mirrored; it faults exactly when one of
      those slots is undefined. */
  lemma ResyncKeeps(s: Store, pda: Address, a: OnChainAccount, i: nat)
    requires Inv(s) && pda in s.accounts
    ensures ResyncFrom(s, pda, a, i).Err? <==> i < a.operatorCount && !SlotsReadable(a)
    ensures ResyncFrom(s, pda, a, i).Ok? ==>
      var r := ResyncFrom(s, pda, a, i).value;
      && Inv(r)
      && r.accounts == s.accounts
      && r.events == s.events
      && |s.operators| <= |r.operators| && r.operators[..|s.operators|] == s.operators
      && (forall j :: i <= j < a.operatorCount ==> HasOperator(r.operators, pda, a.operators[j].pubkey))
      && forall k :: |s.operators| <= k < |r.operators| ==>
           exists j :: i <= j < a.operatorCount && j < |a.operators|
             && r.operators[k] == OperatorRow(pda, a.operators[j].pubkey, a.operators[j].perTxLimit)
  {
    ResyncAddsOnlySlots(s, pda, a, i);
    ResyncCovers(s, pda, a, i);
    ResyncInv(s, pda, a, i);
  }

  /** The create-time resync keeps the schema's constraints. */
  lemma {:induction false} ResyncInv(s: Store, pda: Address, a: OnChainAccount, i: nat)
    requires Inv(s) && pda in s.accounts
    ensures ResyncFrom(s, pda, a, i).Ok? ==> Inv(ResyncFrom(s, pda, a, i).value)
    decreases a.operatorCount - i
  {
    if i < a.operatorCount && i < |a.operators| {
      AddRowKeeps(s, pda, a.operators[i]);
      ResyncInv(AddOperatorRow(s, pda, a.operators[i]), pda, a, i + 1);
    }
  }

  /** After the create-time resync every slot from `i` up to
      `operatorCount` has a row. */
  lemma {:induction false} ResyncCovers(s: Store, pda: Address, a: OnChainAccount, i: nat)
    ensures ResyncFrom(s, pda, a, i).Ok? ==>
      forall j :: i <= j < a.operatorCount ==> HasOperator(ResyncFrom(s, pda, a, i).value.operators, pda, a.operators[j].pubkey)
    decreases a.operatorCount - i
  {
    if i < a.operatorCount && i < |a.operators| {
      var slot := a.operators[i];
      var s' := AddOperatorRow(s, pda, slot);
      ResyncCovers(s', pda, a, i + 1);
      ResyncAddsOnlySlots(s', pda, a, i + 1);
      if ResyncFrom(s', pda, a, i + 1).Ok? {
        var r := ResyncFrom(s', pda, a, i + 1).value;
        AddRowHas(s, pda, slot);
        var k :| 0 <= k < |s'.operators| && s'.operators[k].account == pda && s'.operators[k].operator == slot.pubkey;
        assert r.operators[k] == s'.operators[k] by {
          assert r.operators[k] == r.operators[..|s'.operators|][k];
        }
      }
    }
  }

  lemma AddRowHas(s: Store, pda: Address, slot: Slot)
    ensures HasOperator(AddOperatorRow(s, pda, slot).operators, pda, slot.pubkey)
  {
    if !HasOperator(s.operators, pda, slot.pubkey) {
      assert (s.operators + [OperatorRow(pda, slot.pubkey, slot.perTxLimit)])[|s.operators|].operator == slot.pubkey;
    }
  }

  /** The create-time resync only appends, and every row it appends is
      (the account, slot `j`'s operator, slot `j`'s limit) for a slot `j` in
      use from `i` on. */
  lemma {:induction false} ResyncAddsOnlySlots(s: Store, pda: Address, a: OnChainAccount, i: nat)
    ensures ResyncFrom(s, pda, a, i).Ok? ==>
      var r := ResyncFrom(s, pda, a, i).value;
      && |s.operators| <= |r.operators| && r.operators[..|s.operators|] == s.operators
      && forall k :: |s.operators| <= k < |r.operators| ==>
           exists j :: i <= j < a.operatorCount && j < |a.operators|
             && r.operators[k] == OperatorRow(pda, a.operators[j].pubkey, a.operators[j].perTxLimit)
    decreases a.operatorCount - i
  {
    if i >= a.operatorCount {
      assert s.operators[..|s.operators|] == s.operators;
    } else if i < |a.operators| {
      var slot := a.operators[i];
      var s' := AddOperatorRow(s, pda, slot);
      ResyncAddsOnlySlots(s', pda, a, i + 1);
      if ResyncFrom(s', pda, a, i + 1).Ok? {
        var r := ResyncFrom(s', pda, a, i + 1).value;
        var n := |s.operators|;
        assert r.operators[..n] == s'.operators[..n] by {
          assert r.operators[..n] == r.operators[..|s'.operators|][..n];
        }
        forall k | n <= k < |r.operators|
          ensures (exists j :: i <= j < a.operatorCount && j < |a.operators|
                     && r.operators[k] == OperatorRow(pda, a.operators[j].pubkey, a.operators[j].perTxLimit))
        {
          if k < |s'.operators| {
            assert r.operators[k] == r.operators[..|s'.operators|][k];
            assert r.operators[k] == OperatorRow(pda, slot.pubkey, slot.perTxLimit);
          }
        }
      }
    }
  }

  /** The work of one call keeps the account keys and the constraints and
      appends one event row per kind, in order. */
  lemma WorkKeeps(s: Store, c: Context, kinds: seq<EventKind>)
    requires Inv(s) && c.pda in s.accounts
    ensures Work(s, c, kinds).Ok? ==> Extends(s, Work(s, c, kinds).value, c, kinds)
  {
    ApplyKindsKeeps(s, c, kinds);
    if ApplyKinds(s, c, kinds).Ok? && AccountCreated in kinds && c.snapshot.Some? {
      ResyncKeeps(ApplyKinds(s, c, kinds).value, c.pda, c.snapshot.value, 0);
    }
  }

  /** One call keeps the schema's constraints. Either it changes nothing, or
      it has located an account among the transaction's keys, kept every
      account (adding at most the located one), and appended exactly one
      event row per classified kind, in order, for that account, with the
      transaction id and `accountKeys[0]` as actor. */
  lemma IndexedKeeps(s: Store, txid: string, tx: TxInfo, chain: Chain)
    requires Inv(s)
    ensures var r := Indexed(s, txid, tx, chain);
      && Inv(r)
      && (r == s ||
          var kinds := Classify(tx.logMessages);
          && tx.accountKeys.Some? && |tx.accountKeys.value| > 0
          && var keys := tx.accountKeys.value;
          && Locate(kinds, keys, chain, s.accounts).Some?
          && var (pda, snapshot) := Locate(kinds, keys, chain, s.accounts).value;
          && var c := Context(txid, keys[0], pda, snapshot, tx);
          && s.accounts.Keys <= r.accounts.Keys <= s.accounts.Keys + {pda}
          && pda in r.accounts
          && |r.events| == |s.events| + |kinds|
          && r.events[..|s.events|] == s.events
          && forall i :: 0 <= i < |kinds| ==> RecordsKind(r.events[|s.events| + i], c, kinds[i]))
  {
    var kinds := Classify(tx.logMessages);
    if kinds != [] && tx.accountKeys.Some? && |tx.accountKeys.value| > 0 {
      var keys := tx.accountKeys.value;
      if Locate(kinds, keys, chain, s.accounts).Some? {
        var (pda, snapshot) := Locate(kinds, keys, chain, s.accounts).value;
        if pda in s.accounts || snapshot.Some? {
          var s1 := if pda in s.accounts then s
                    else s.(accounts := s.accounts[pda := NewAccount(snapshot.value)]);
          assert Inv(s1);
          WorkKeeps(s1, Context(txid, keys[0], pda, snapshot, tx), kinds);
        }
      }
    }
  }

  /** With a snapshot whose slots are all defined, or with none, no step
      faults. */
  lemma {:induction false} ApplyKindsTotal(s: Store, c: Context, kinds: seq<EventKind>)
    requires c.snapshot.None? || SlotsReadable(c.snapshot.value)
    ensures ApplyKinds(s, c, kinds).Ok?
    decreases |kinds|
  {
    if kinds != [] {
      assert Dispatch(s, c, kinds[0]).Ok?;
      ApplyKindsTotal(ApplyKind(s, c, kinds[0]).value, c, kinds[1..]);
    }
  }

  /** A transaction that only closes an account, once located: the account
      is `CLOSED`, every operator row of it is gone, the other rows stay,
      and one `ACCOUNT_CLOSED` event row is appended. */
  lemma ClosingTransaction(s: Store, txid: string, tx: TxInfo, chain: Chain, pda: Address,
                           snapshot: Option<OnChainAccount>)
    requires Inv(s)
    requires Classify(tx.logMessages) == [AccountClosed]
    requires tx.accountKeys.Some? && |tx.accountKeys.value| > 0
    requires Locate([AccountClosed], tx.accountKeys.value, chain, s.accounts) == Some((pda, snapshot))
    requires pda in s.accounts || snapshot.Some?
    ensures var r := Indexed(s, txid, tx, chain);
      && pda in r.accounts && r.accounts[pda].status == Closed
      && (forall x :: x in r.operators <==> x in s.operators && x.account != pda)
      && r.events == s.events + [EventRow(pda, AccountClosed, txid, tx.accountKeys.value[0], None)]
  {
    var keys := tx.accountKeys.value;
    var s1 := if pda in s.accounts then s else s.(accounts := s.accounts[pda := NewAccount(snapshot.value)]);
    var c := Context(txid, keys[0], pda, snapshot, tx);
    assert forall x :: x in s1.operators <==> x in s.operators;
    assert ApplyKinds(s1, c, [AccountClosed]) == ApplyKind(s1, c, AccountClosed);
  }

  /** A transaction that creates an account found on chain with all slots
      defined commits, and afterwards every operator in the first
      `operatorCount` slots is mirrored for it. */
  lemma CreatingTransaction(s: Store, txid: string, tx: TxInfo, chain: Chain, pda: Address,
                            a: OnChainAccount)
    requires Inv(s)
    requires AccountCreated in Classify(tx.logMessages)
    requires tx.accountKeys.Some? && |tx.accountKeys.value| > 0
    requires FirstOnChain(tx.accountKeys.value, chain) == Some((pda, a))
    requires SlotsReadable(a)
    ensures var r := Indexed(s, txid, tx, chain);
      && pda in r.accounts
      && |r.events| == |s.events| + |Classify(tx.logMessages)|
      && forall j :: 0 <= j < a.operatorCount ==> HasOperator(r.operators, pda, a.operators[j].pubkey)
  {
    var kinds := Classify(tx.logMessages);
    var keys := tx.accountKeys.value;
    var s1 := if pda in s.accounts then s else s.(accounts := s.accounts[pda := NewAccount(a)]);
    var c := Context(txid, keys[0], pda, Some(a), tx);
    ApplyKindsTotal(s1, c, kinds);
    ApplyKindsKeeps(s1, c, kinds);
    var s2 := ApplyKinds(s1, c, kinds).value;
    ResyncKeeps(s2, pda, a, 0);
  }

  // ---- What a committed call does ----

  /** The status after the kinds, in order: a create sets `ACTIVE`, a close
      `CLOSED`, every other kind keeps it. */
  function StatusAfter(st: Status, kinds: seq<EventKind>): Status
    decreases |kinds|
  {
    if kinds == [] then st
    else StatusAfter(if kinds[0] == AccountCreated then Active else if kinds[0] == AccountClosed then Closed else st, kinds[1..])
  }

  /** One kind changes only the located account: its status as a create or
      a close sets it, and its operator rows. */
  lemma StepTouchesOnlyPda(s: Store, c: Context, kind: EventKind)
    requires c.pda in s.accounts
    ensures ApplyKind(s, c, kind).Ok? ==>
      var r := ApplyKind(s, c, kind).value;
      && r.accounts == s.accounts[c.pda := s.accounts[c.pda].(status := StatusAfter(s.accounts[c.pda].status, [kind]))]
      && forall x: OperatorRow :: x.account != c.pda ==> (x in r.operators <==> x in s.operators)
  {
    if ApplyKind(s, c, kind).Ok? {
      var (m, data) := Dispatch(s, c, kind).value;
      DispatchEffect(s, c, kind, m, data);
      ApplyKindEffect(s, c, kind);
      assert StatusAfter(s.accounts[c.pda].status, [kind])
          == if kind == AccountCreated then Active else if kind == AccountClosed then Closed else s.accounts[c.pda].status;
      if kind != AccountCreated && kind != AccountClosed {
        assert s.accounts[c.pda := s.accounts[c.pda]] == s.accounts;
      }
    }
  }

  /** The event loop leaves the located account with the status the
      creates and closes among the kinds give it, and every other account
      as it was. */
  lemma {:induction false} ApplyKindsStatus(s: Store, c: Context, kinds: seq<EventKind>)
    requires c.pda in s.accounts
    ensures ApplyKinds(s, c, kinds).Ok? ==>
      ApplyKinds(s, c, kinds).value.accounts
        == s.accounts[c.pda := s.accounts[c.pda].(status := StatusAfter(s.accounts[c.pda].status, kinds))]
    decreases |kinds|
  {
    if kinds == [] {
      assert s.accounts[c.pda := s.accounts[c.pda]] == s.accounts;
    } else if ApplyKind(s, c, kinds[0]).Ok? {
      StepTouchesOnlyPda(s, c, kinds[0]);
      var m := ApplyKind(s, c, kinds[0]).value;
      ApplyKindsStatus(m, c, kinds[1..]);
      assert StatusAfter(s.accounts[c.pda].status, kinds)
          == StatusAfter(StatusAfter(s.accounts[c.pda].status, [kinds[0]]), kinds[1..]);
    }
  }

  /** The event loop keeps every other account's operator rows. */
  lemma {:induction false} ApplyKindsKeepsOtherRows(s: Store, c: Context, kinds: seq<EventKind>)
    requires c.pda in s.accounts
    ensures ApplyKinds(s, c, kinds).Ok? ==>
      forall x: OperatorRow :: x.account != c.pda ==> (x in ApplyKinds(s, c, kinds).value.operators <==> x in s.operators)
    decreases |kinds|
  {
    if kinds != [] && ApplyKind(s, c, kinds[0]).Ok? {
      StepTouchesOnlyPda(s, c, kinds[0]);
      var m := ApplyKind(s, c, kinds[0]).value;
      ApplyKindsKeepsOtherRows(m, c, kinds[1..]);
    }
  }

  /** The work of one call changes only the located account and its rows. */
  lemma WorkTouchesOnlyPda(s: Store, c: Context, kinds: seq<EventKind>)
    requires c.pda in s.accounts
    ensures Work(s, c, kinds).Ok? ==>
      var r := Work(s, c, kinds).value;
      && r.accounts == s.accounts[c.pda := s.accounts[c.pda].(status := StatusAfter(s.accounts[c.pda].status, kinds))]
      && forall x: OperatorRow :: x.account != c.pda ==> (x in r.operators <==> x in s.operators)
  {
    ApplyKindsStatus(s, c, kinds);
    ApplyKindsKeepsOtherRows(s, c, kinds);
    if ApplyKinds(s, c, kinds).Ok? && AccountCreated in kinds && c.snapshot.Some? {
      ResyncTouchesOnlyPda(ApplyKinds(s, c, kinds).value, c.pda, c.snapshot.value, 0);
    }
  }

  /** The create-time resync adds rows of the account only. */
  lemma ResyncTouchesOnlyPda(s: Store, pda: Address, a: OnChainAccount, i: nat)
    ensures ResyncFrom(s, pda, a, i).Ok? ==>
      forall x: OperatorRow :: x.account != pda ==> (x in ResyncFrom(s, pda, a, i).value.operators <==> x in s.operators)
  {
    ResyncAddsOnlySlots(s, pda, a, i);
    if ResyncFrom(s, pda, a, i).Ok? {
      var r := ResyncFrom(s, pda, a, i).value;
      forall x: OperatorRow | x.account != pda
        ensures x in r.operators <==> x in s.operators
      {
        if x in r.operators {
          var k :| 0 <= k < |r.operators| && r.operators[k] == x;
          assert k < |s.operators|;
          assert r.operators[..|s.operators|][k] == x;
        }
        if x in s.operators {
          var k :| 0 <= k < |s.operators| && s.operators[k] == x;
          assert r.operators[..|s.operators|][k] == x;
        }
      }
    }
  }

  /** The tables a located call starts its work from: the mirror, with a
      new `ACTIVE` row for an account fetched but not yet mirrored. */
  function Pending(s: Store, pda: Address, snapshot: Option<OnChainAccount>): (p: Store)
    requires pda in s.accounts || snapshot.Some?
    ensures p.accounts.Keys == s.accounts.Keys + {pda}
    ensures p.operators == s.operators && p.events == s.events
  {
    if pda in s.accounts then s else s.(accounts := s.accounts[pda := NewAccount(snapshot.value)])
  }

  /** A located call that can record its account commits its work on the
      pending tables, or, when that work throws, is abandoned and leaves the
      tables as they were; the work cannot throw when the snapshot has every
      slot in use defined. */
  lemma IndexedIsWork(s: Store, txid: string, tx: TxInfo, chain: Chain, pda: Address,
                      snapshot: Option<OnChainAccount>)
    requires Classify(tx.logMessages) != []
    requires tx.accountKeys.Some? && |tx.accountKeys.value| > 0
    requires Locate(Classify(tx.logMessages), tx.accountKeys.value, chain, s.accounts) == Some((pda, snapshot))
    requires pda in s.accounts || snapshot.Some?
    ensures var c := Context(txid, tx.accountKeys.value[0], pda, snapshot, tx);
      var w := Work(Pending(s, pda, snapshot), c, Classify(tx.logMessages));
      && (snapshot.None? || SlotsReadable(snapshot.value) ==> w.Ok?)
      && (w.Ok? ==> Indexed(s, txid, tx, chain) == w.value)
      && (w.Err? ==> Indexed(s, txid, tx, chain) == s)
  {
    if snapshot.None? || SlotsReadable(snapshot.value) {
      ApplyKindsTotal(Pending(s, pda, snapshot), Context(txid, tx.accountKeys.value[0], pda, snapshot, tx), Classify(tx.logMessages));
    }
  }

  /** A creating transaction for a fetched account with a slot in use past
      the end of its slot array throws, in the event loop or at the latest
      in the resync, and is abandoned: the tables stay as they were. */
  lemma AbandonedCreate(s: Store, txid: string, tx: TxInfo, chain: Chain, pda: Address,
                        a: OnChainAccount)
    requires AccountCreated in Classify(tx.logMessages)
    requires tx.accountKeys.Some? && |tx.accountKeys.value| > 0
    requires FirstOnChain(tx.accountKeys.value, chain) == Some((pda, a))
    requires !SlotsReadable(a)
    ensures Indexed(s, txid, tx, chain) == s
  {
    var kinds := Classify(tx.logMessages);
    var c := Context(txid, tx.accountKeys.value[0], pda, Some(a), tx);
    IndexedIsWork(s, txid, tx, chain, pda, Some(a));
    assert Work(Pending(s, pda, Some(a)), c, kinds).Err?;
  }

  /** A call that locates an account it can record (mirrored, or fetched)
      and whose snapshot, if any, has every slot in use defined, commits:
      the tables change; the located account is mirrored, with the status
      the creates and closes among the kinds leave it (a new account starts
      `ACTIVE` with the snapshot's owner and mint); no other account and no
      other account's operator rows change; and one event row per
      classified kind is appended, in order, with its resolved kind and its
      payload. */
  lemma CommittingTransaction(s: Store, txid: string, tx: TxInfo, chain: Chain, pda: Address,
                              snapshot: Option<OnChainAccount>)
    requires Inv(s)
    requires Classify(tx.logMessages) != []
    requires tx.accountKeys.Some? && |tx.accountKeys.value| > 0
    requires Locate(Classify(tx.logMessages), tx.accountKeys.value, chain, s.accounts) == Some((pda, snapshot))
    requires pda in s.accounts || snapshot.Some?
    requires snapshot.None? || SlotsReadable(snapshot.value)
    ensures var r := Indexed(s, txid, tx, chain);
      var kinds := Classify(tx.logMessages);
      var before := if pda in s.accounts then s.accounts[pda] else NewAccount(snapshot.value);
      var c := Context(txid, tx.accountKeys.value[0], pda, snapshot, tx);
      && r != s
      && Extends(Pending(s, pda, snapshot), r, c, kinds)
      && r.accounts == s.accounts[pda := before.(status := StatusAfter(before.status, kinds))]
      && (forall x: OperatorRow :: x.account != pda ==> (x in r.operators <==> x in s.operators))
  {
    var kinds := Classify(tx.logMessages);
    var s1 := Pending(s, pda, snapshot);
    var c := Context(txid, tx.accountKeys.value[0], pda, snapshot, tx);
    assert Inv(s1);
    IndexedIsWork(s, txid, tx, chain, pda, snapshot);
    WorkKeeps(s1, c, kinds);
    WorkTouchesOnlyPda(s1, c, kinds);
    var before := if pda in s.accounts then s.accounts[pda] else NewAccount(snapshot.value);
    assert s1.accounts[pda] == before;
    assert s1.accounts[pda := before.(status := StatusAfter(before.status, kinds))]
        == s.accounts[pda := before.(status := StatusAfter(before.status, kinds))];
  }

  /** Without a close among the kinds, the status ends `ACTIVE` after a
      create and is kept otherwise. */
  lemma {:induction false} StatusAfterNoClose(st: Status, kinds: seq<EventKind>)
    requires AccountClosed !in kinds
    ensures StatusAfter(st, kinds) == if AccountCreated in kinds then Active else st
    decreases |kinds|
  {
    if kinds != [] {
      var st' := if kinds[0] == AccountCreated then Active else st;
      assert kinds == [kinds[0]] + kinds[1..];
      StatusAfterNoClose(st', kinds[1..]);
    }
  }

  /** A creating transaction for a fetched account with every slot in use
      defined leaves the account `ACTIVE`, unless it also closes it. */
  lemma CreatedStaysActive(s: Store, txid: string, tx: TxInfo, chain: Chain, pda: Address,
                           a: OnChainAccount)
    requires Inv(s)
    requires AccountCreated in Classify(tx.logMessages)
    requires tx.accountKeys.Some? && |tx.accountKeys.value| > 0
    requires FirstOnChain(tx.accountKeys.value, chain) == Some((pda, a))
    requires SlotsReadable(a)
    ensures pda in Indexed(s, txid, tx, chain).accounts
    ensures AccountClosed !in Classify(tx.logMessages) ==> Indexed(s, txid, tx, chain).accounts[pda].status == Active
  {
    CommittingTransaction(s, txid, tx, chain, pda, Some(a));
    var before := if pda in s.accounts then s.accounts[pda] else NewAccount(a);
    if AccountClosed !in Classify(tx.logMessages) {
      StatusAfterNoClose(before.status, Classify(tx.logMessages));
    }
  }
}
