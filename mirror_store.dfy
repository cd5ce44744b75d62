/** The local mirror as one value: the accounts keyed by pda, the operator
    rows in insertion order, and the append-only event log; with the
    constraints of its schema. */
module MirrorStore {
  import opened Ledger
  import opened Entities

  datatype Store = Store(
    accounts: map<Address, AccountRow>,
    operators: seq<OperatorRow>,
    events: seq<EventRow>)

  /** The unique key (account, operator) of the operator table. */
  predicate SameKey(x: OperatorRow, y: OperatorRow) {
    x.account == y.account && x.operator == y.operator
  }

  ghost predicate UniqueKeys(rows: seq<OperatorRow>) {
    forall i, j :: 0 <= i < j < |rows| ==> !SameKey(rows[i], rows[j])
  }

  /** The schema's constraints: (account, operator) is unique, and every
      operator and event row refers to an existing account (pda is unique
      because it keys the map). */
  ghost predicate Inv(s: Store) {
    && UniqueKeys(s.operators)
    && (forall k :: 0 <= k < |s.operators| ==> s.operators[k].account in s.accounts)
    && (forall k :: 0 <= k < |s.events| ==> s.events[k].account in s.accounts)
  }

  /** `findOne({ account, operator })` finds a row. */
  predicate HasOperator(rows: seq<OperatorRow>, account: Address, operator: Address) {
    exists k :: 0 <= k < |rows| && rows[k].account == account && rows[k].operator == operator
  }

  /** `find({ account })`: the account's rows, in row order. */
  function RowsOf(rows: seq<OperatorRow>, account: Address): (r: seq<OperatorRow>)
    ensures forall x :: x in r <==> x in rows && x.account == account
  {
    if rows == [] then []
    else (if rows[0].account == account then [rows[0]] else []) + RowsOf(rows[1..], account)
  }

  /** The rows with every row of `doomed` removed, the others in order. */
  function ExceptSet(rows: seq<OperatorRow>, doomed: set<OperatorRow>): (r: seq<OperatorRow>)
    ensures |r| <= |rows|
    ensures forall x :: x in r <==> x in rows && x !in doomed
  {
    if rows == [] then []
    else (if rows[0] in doomed then [] else [rows[0]]) + ExceptSet(rows[1..], doomed)
  }

  /** Every row of the account removed. */
  function DropAccount(rows: seq<OperatorRow>, account: Address): (r: seq<OperatorRow>)
    ensures forall x :: x in r <==> x in rows && x.account != account
  {
    ExceptSet(rows, set x | x in rows && x.account == account)
  }

  lemma {:induction false} ExceptUnique(rows: seq<OperatorRow>, doomed: set<OperatorRow>)
    requires UniqueKeys(rows)
    ensures UniqueKeys(ExceptSet(rows, doomed))
  {
    if rows != [] {
      var tail := rows[1..];
      assert UniqueKeys(tail) by {
        forall i, j | 0 <= i < j < |tail| ensures !SameKey(tail[i], tail[j]) {
          assert tail[i] == rows[i + 1] && tail[j] == rows[j + 1];
        }
      }
      ExceptUnique(tail, doomed);
      var rest := ExceptSet(tail, doomed);
      if rows[0] !in doomed {
        var r := [rows[0]] + rest;
        forall i, j | 0 <= i < j < |r| ensures !SameKey(r[i], r[j]) {
          if i == 0 {
            assert r[j] in tail;
            var m :| 0 <= m < |tail| && tail[m] == r[j];
            assert tail[m] == rows[m + 1];
          } else {
            assert r[i] == rest[i - 1] && r[j] == rest[j - 1];
          }
        }
      }
    }
  }

  lemma {:induction false} ExceptTwice(rows: seq<OperatorRow>, s: set<OperatorRow>, t: set<OperatorRow>)
    ensures ExceptSet(ExceptSet(rows, s), t) == ExceptSet(rows, s + t)
  {
    if rows != [] {
      var tail := rows[1..];
      ExceptTwice(tail, s, t);
      var once := ExceptSet(rows, s);
      if rows[0] in s {
        assert once == ExceptSet(tail, s);
      } else {
        assert once == [rows[0]] + ExceptSet(tail, s);
        assert once[1..] == ExceptSet(tail, s);
        if rows[0] in t {
          assert ExceptSet(once, t) == ExceptSet(once[1..], t);
        } else {
          assert ExceptSet(once, t) == [rows[0]] + ExceptSet(once[1..], t);
        }
      }
    }
  }

  /** Appending a row whose key is new keeps the keys unique. */
  lemma AppendUnique(rows: seq<OperatorRow>, x: OperatorRow)
    requires UniqueKeys(rows)
    requires !HasOperator(rows, x.account, x.operator)
    ensures UniqueKeys(rows + [x])
  {
    var r := rows + [x];
    forall i, j | 0 <= i < j < |r| ensures !SameKey(r[i], r[j]) {
      if j == |rows| {
        assert r[i] == rows[i];
      } else {
        assert r[i] == rows[i] && r[j] == rows[j];
      }
    }
  }

  lemma ExceptNothing(rows: seq<OperatorRow>)
    ensures ExceptSet(rows, {}) == rows
  {
  }

  /** The rows of a sequence, as a set. */
  function Elems(rows: seq<OperatorRow>): set<OperatorRow> {
    if rows == [] then {} else {rows[0]} + Elems(rows[1..])
  }

  lemma {:induction false} ElemsMembers(rows: seq<OperatorRow>)
    ensures forall x :: x in Elems(rows) <==> x in rows
  {
    if rows != [] {
      ElemsMembers(rows[1..]);
      assert forall x :: x in rows <==> x == rows[0] || x in rows[1..];
    }
  }

  lemma ElemsSnoc(rows: seq<OperatorRow>, j: nat)
    requires j < |rows|
    ensures Elems(rows[..j + 1]) == Elems(rows[..j]) + {rows[j]}
  {
    ElemsMembers(rows[..j + 1]);
    ElemsMembers(rows[..j]);
    assert rows[..j + 1] == rows[..j] + [rows[j]];
  }

  /** Removing the rows `find({ account })` returns is dropping the account. */
  lemma ElemsRowsOf(rows: seq<OperatorRow>, account: Address)
    ensures Elems(RowsOf(rows, account)) == set x | x in rows && x.account == account
  {
    ElemsMembers(RowsOf(rows, account));
  }
}
