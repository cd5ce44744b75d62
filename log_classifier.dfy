/** The log classifier of the account indexer: it turns the program log lines
    of one transaction into the ordered event kinds of the managed-account
    program, tracking with one boolean whether the lines are inside that
    program's invocation. */
module LogClassifier {
  import opened Wrappers
  import opened Text
  import opened Entities

  const InstructionPrefix := "Instruction: "

  /** The instruction table: Anchor instruction names of the managed-account
      program and the event kind each one is recorded as. A pause toggle is
      recorded as `Paused` here and resolved against the snapshot later. */
  function InstructionKind(name: string): (k: Option<EventKind>)
    ensures k.Some? <==> name in {"CreateAccount", "CloseAccount", "Deposit",
                                  "TransferFromAccount", "AddOperator",
                                  "RemoveOperator", "TogglePause"}
    ensures k != Some(Unpaused)
  {
    if name == "CreateAccount" then Some(AccountCreated)
    else if name == "CloseAccount" then Some(AccountClosed)
    else if name == "Deposit" then Some(Deposit)
    else if name == "TransferFromAccount" then Some(Transfer)
    else if name == "AddOperator" then Some(OperatorAdded)
    else if name == "RemoveOperator" then Some(OperatorRemoved)
    else if name == "TogglePause" then Some(Paused)
    else None
  }

  /** The capture group of `/Instruction: (\w+)/` at its leftmost match
      starting at or after `i`. */
  function InstructionNameFrom(line: string, i: nat): (r: Option<string>)
    requires i <= |line|
    ensures r.Some? ==> |r.value| > 0
    ensures r.Some? ==> forall k :: 0 <= k < |r.value| ==> IsWordChar(r.value[k])
    ensures r.Some? ==> Contains(line, InstructionPrefix + r.value)
    decreases |line| - i
  {
    if i + |InstructionPrefix| >= |line| then None
    else if OccursAt(line, InstructionPrefix, i) && IsWordChar(line[i + |InstructionPrefix|]) then
      var start := i + |InstructionPrefix|;
      var name := line[start..start + WordRun(line, start)];
      assert line[i..start + |name|] == InstructionPrefix + name;
      assert OccursAt(line, InstructionPrefix + name, i);
      Some(name)
    else
      InstructionNameFrom(line, i + 1)
  }

  /** The pattern matches at `k`: `Instruction: ` followed by a word
      character. */
  predicate MatchAt(line: string, k: nat) {
    k + |InstructionPrefix| < |line| && OccursAt(line, InstructionPrefix, k)
    && IsWordChar(line[k + |InstructionPrefix|])
  }

  /** The greedy `\w+` after a match at `k`. */
  function CaptureAt(line: string, k: nat): string
    requires MatchAt(line, k)
  {
    var start := k + |InstructionPrefix|;
    line[start..start + WordRun(line, start)]
  }

  /** No answer exactly when the pattern matches nowhere from `i` on;
      otherwise the greedy capture at the leftmost match. */
  lemma {:induction false} InstructionNameFromIsLeftmost(line: string, i: nat)
    requires i <= |line|
    ensures InstructionNameFrom(line, i).None? <==> forall k :: i <= k < |line| ==> !MatchAt(line, k)
    ensures InstructionNameFrom(line, i).Some? ==>
      exists k :: i <= k < |line| && MatchAt(line, k)
        && (forall m :: i <= m < k ==> !MatchAt(line, m))
        && InstructionNameFrom(line, i).value == CaptureAt(line, k)
    decreases |line| - i
  {
    if i + |InstructionPrefix| >= |line| {
      assert InstructionNameFrom(line, i) == None;
      assert forall k :: i <= k < |line| ==> !MatchAt(line, k);
    } else if MatchAt(line, i) {
      assert InstructionNameFrom(line, i) == Some(CaptureAt(line, i));
    } else {
      assert InstructionNameFrom(line, i) == InstructionNameFrom(line, i + 1);
      InstructionNameFromIsLeftmost(line, i + 1);
    }
  }

  /** `log.match(/Instruction: (\w+)/)?.[1]`. */
  function InstructionName(line: string): Option<string> {
    InstructionNameFrom(line, 0)
  }

  /** The event kind a line names, if it names a known instruction. */
  function LineKind(line: string): Option<EventKind> {
    match InstructionName(line)
    case None => None
    case Some(name) => InstructionKind(name)
  }

  /** The `inSilkysig` flag after one more line. */
  function Step(inSilkysig: bool, line: string): (next: bool)
    // a clear flag is set exactly by a line naming the program and `invoke`
    ensures !inSilkysig ==> (next <==> Contains(line, "SiLKos") && Contains(line, "invoke"))
    // a set flag stays set on every `invoke` line (nested calls included)
    ensures inSilkysig && Contains(line, "invoke") ==> next
    // a set flag is cleared only by a `success` line that is no `invoke` line
    ensures inSilkysig && !next <==> inSilkysig && Contains(line, "success") && !Contains(line, "invoke")
  {
    if Contains(line, "SiLKos") && Contains(line, "invoke") then true
    else if inSilkysig && Contains(line, "invoke") then true
    else if Contains(line, "success") || (Contains(line, "invoke") && !Contains(line, "SiLKos")) then false
    else inSilkysig
  }

  /** The flag once the first `k` lines have been read. */
  function FlagAfter(lines: seq<string>, k: nat): bool
    requires k <= |lines|
  {
    if k == 0 then false else Step(FlagAfter(lines, k - 1), lines[k - 1])
  }

  /** Line `i` yields a kind: it is read while the flag is set and names a
      known instruction. */
  predicate Selected(lines: seq<string>, i: nat)
    requires i < |lines|
  {
    FlagAfter(lines, i + 1) && LineKind(lines[i]).Some?
  }

  /** The kinds emitted for the first `k` lines. */
  function Classified(lines: seq<string>, k: nat): (kinds: seq<EventKind>)
    requires k <= |lines|
    ensures |kinds| <= k
    ensures Unpaused !in kinds
  {
    if k == 0 then []
    else
      var earlier := Classified(lines, k - 1);
      if Selected(lines, k - 1) then earlier + [LineKind(lines[k - 1]).value] else earlier
  }

  /** The kinds of a transaction's logs; absent logs yield none. */
  function Classify(logs: Option<seq<string>>): (kinds: seq<EventKind>)
    ensures logs.None? ==> kinds == []
    ensures logs.Some? ==> |kinds| <= |logs.value|
  {
    match logs
    case None => []
    case Some(lines) => Classified(lines, |lines|)
  }

  /** `parseSilkysigEvents`: one pass over the lines with the flag. */
  method ParseSilkysigEvents(logs: Option<seq<string>>) returns (events: seq<EventKind>)
    ensures events == Classify(logs)
  {
    if logs.None? {
      return [];
    }
    var lines := logs.value;
    events := [];
    var inSilkysig := false;
    for i := 0 to |lines|
      invariant inSilkysig == FlagAfter(lines, i)
      invariant events == Classified(lines, i)
    {
      var log := lines[i];
      if Contains(log, "SiLKos") && Contains(log, "invoke") {
        inSilkysig := true;
      } else if inSilkysig && Contains(log, "invoke") {
        // a nested call made by the program: still inside it
      } else if Contains(log, "success") || (Contains(log, "invoke") && !Contains(log, "SiLKos")) {
        inSilkysig := false;
      }
      if !inSilkysig {
        continue;
      }
      var name := InstructionName(log);
      if name.Some? {
        var kind := InstructionKind(name.value);
        if kind.Some? {
          events := events + [kind.value];
        }
      }
    }
  }

  /** `o` lists, in increasing order, exactly the selected lines, and the
      `j`-th of them names the `j`-th kind. */
  ghost predicate ExplainedBy(lines: seq<string>, kinds: seq<EventKind>, o: seq<nat>) {
    && |o| == |kinds|
    && (forall j :: 0 <= j < |o| ==> o[j] < |lines| && Selected(lines, o[j]) && LineKind(lines[o[j]]) == Some(kinds[j]))
    && (forall j1, j2 :: 0 <= j1 < j2 < |o| ==> o[j1] < o[j2])
    && (forall i :: 0 <= i < |lines| && Selected(lines, i) ==> i in o)
  }

  function SelectedUpTo(lines: seq<string>, k: nat): seq<nat>
    requires k <= |lines|
  {
    if k == 0 then []
    else SelectedUpTo(lines, k - 1) + (if Selected(lines, k - 1) then [k - 1] else [])
  }

  lemma {:induction false} SelectedUpToExplains(lines: seq<string>, k: nat)
    requires k <= |lines|
    ensures var o, kinds := SelectedUpTo(lines, k), Classified(lines, k);
      && |o| == |kinds|
      && (forall j :: 0 <= j < |o| ==> o[j] < k && Selected(lines, o[j]) && LineKind(lines[o[j]]) == Some(kinds[j]))
      && (forall j1, j2 :: 0 <= j1 < j2 < |o| ==> o[j1] < o[j2])
      && (forall i :: 0 <= i < k && Selected(lines, i) ==> i in o)
  {
    if k > 0 {
      SelectedUpToExplains(lines, k - 1);
    }
  }

  /** Every emitted kind comes from a line read while the flag was set that
      names a known instruction, the kinds keep the order of their lines, and
      every such line contributes its kind. */
  lemma ClassifyExplained(lines: seq<string>)
    ensures exists o :: ExplainedBy(lines, Classify(Some(lines)), o)
  {
    SelectedUpToExplains(lines, |lines|);
    assert ExplainedBy(lines, Classify(Some(lines)), SelectedUpTo(lines, |lines|));
  }

  /** Logs without a line naming a known instruction yield no kinds. */
  lemma {:induction false} NoInstructionNoKinds(lines: seq<string>, k: nat)
    requires k <= |lines|
    requires forall i :: 0 <= i < k ==> LineKind(lines[i]).None?
    ensures Classified(lines, k) == []
  {
    if k > 0 {
      NoInstructionNoKinds(lines, k - 1);
    }
  }

  // ---- As written: the table is a plain object literal ----

  /** Names every object literal inherits from `Object.prototype` that `\w+`
      can capture; looking them up in the table yields a truthy value. */
  const InheritedNames: set<string> := {
    "constructor", "hasOwnProperty", "isPrototypeOf", "propertyIsEnumerable",
    "toLocaleString", "toString", "valueOf", "__proto__", "__defineGetter__",
    "__defineSetter__", "__lookupGetter__", "__lookupSetter__"}

  /** What `SILKYSIG_INSTRUCTION_MAP[name]` yields when truthy: a kind, or an
      inherited member that is no event kind at all. */
  datatype TableHit = Kind(kind: EventKind) | Inherited(name: string)

  function TableLookupAsWritten(name: string): Option<TableHit> {
    match InstructionKind(name)
    case Some(k) => Some(Kind(k))
    case None => if name in InheritedNames then Some(Inherited(name)) else None
  }

  function LineHitAsWritten(line: string): Option<TableHit> {
    match InstructionName(line)
    case None => None
    case Some(name) => TableLookupAsWritten(name)
  }

  /** `parseSilkysigEvents` as written: what it pushes for the first `k` lines. */
  function ClassifiedAsWritten(lines: seq<string>, k: nat): (hits: seq<TableHit>)
    requires k <= |lines|
    ensures |hits| <= k
    ensures forall i :: 0 <= i < |hits| ==> hits[i].Kind? || hits[i].name in InheritedNames
  {
    if k == 0 then []
    else
      var earlier := ClassifiedAsWritten(lines, k - 1);
      if FlagAfter(lines, k) && LineHitAsWritten(lines[k - 1]).Some?
      then earlier + [LineHitAsWritten(lines[k - 1]).value]
      else earlier
  }

  /** Each kind of a sequence as a table hit. */
  function KindHits(kinds: seq<EventKind>): (hits: seq<TableHit>)
    ensures |hits| == |kinds|
    ensures forall i :: 0 <= i < |kinds| ==> hits[i] == Kind(kinds[i])
  {
    if kinds == [] then [] else KindHits(kinds[..|kinds| - 1]) + [Kind(kinds[|kinds| - 1])]
  }

  /** Lines that name no inherited member are classified alike by the code
      as written and by the corrected classifier. */
  lemma {:induction false} AsWrittenAgreesWithoutInherited(lines: seq<string>, k: nat)
    requires k <= |lines|
    requires forall i :: 0 <= i < k ==> InstructionName(lines[i]).None? || InstructionName(lines[i]).value !in InheritedNames
    ensures ClassifiedAsWritten(lines, k) == KindHits(Classified(lines, k))
  {
    if k > 0 {
      AsWrittenAgreesWithoutInherited(lines, k - 1);
      var kinds := Classified(lines, k - 1);
      if Selected(lines, k - 1) {
        assert (kinds + [LineKind(lines[k - 1]).value])[..|kinds|] == kinds;
      }
    }
  }

  lemma AbsentCharNotContained(s: string, t: string, c: char)
    requires c in t && c !in s
    ensures !Contains(s, t)
  {
  }

  /** A position holding no `I` starts no match of the pattern. */
  lemma SkipPosition(line: string, i: nat)
    requires i < |line| && line[i] != 'I'
    ensures InstructionNameFrom(line, i) == if i + |InstructionPrefix| >= |line| then None else InstructionNameFrom(line, i + 1)
  {
  }

  lemma ToStringMatchAt13(l1: string)
    requires l1 == "Program log: Instruction: toString"
    ensures InstructionNameFrom(l1, 13) == Some("toString")
  {
    assert l1[13..26] == "Instruction: ";
    assert OccursAt(l1, InstructionPrefix, 13);
    assert WordRun(l1, 34) == 0;
    assert WordRun(l1, 30) == 4;
    assert WordRun(l1, 26) == 8;
    assert IsWordChar(l1[26]);
    assert l1[26..34] == "toString";
  }

  /** A stretch without `I` starts no match of the pattern. */
  lemma {:induction false} SkipStretch(line: string, i: nat, j: nat)
    requires i <= j && j + |InstructionPrefix| < |line|
    requires forall k :: i <= k < j ==> line[k] != 'I'
    ensures InstructionNameFrom(line, i) == InstructionNameFrom(line, j)
    decreases j - i
  {
    if i < j {
      SkipPosition(line, i);
      SkipStretch(line, i + 1, j);
    }
  }

  lemma ToStringNoMatchBefore13(l1: string)
    requires l1 == "Program log: Instruction: toString"
    ensures InstructionNameFrom(l1, 0) == InstructionNameFrom(l1, 13)
  {
    var head := l1[..13];
    assert head == "Program log: ";
    assert 'I' !in head;
    assert forall k :: 0 <= k < 13 ==> l1[k] == head[k];
    SkipStretch(l1, 0, 13);
  }

  lemma ToStringLineName(l1: string)
    requires l1 == "Program log: Instruction: toString"
    ensures InstructionName(l1) == Some("toString")
    ensures LineKind(l1) == None
    ensures LineHitAsWritten(l1) == Some(Inherited("toString"))
  {
    ToStringMatchAt13(l1);
    ToStringNoMatchBefore13(l1);
  }

  lemma InvokeLineSetsFlag(l0: string)
    requires l0 == "Program SiLKos invoke [1]"
    ensures Step(false, l0) && InstructionName(l0).None?
  {
    assert OccursAt(l0, "SiLKos", 8);
    assert OccursAt(l0, "invoke", 15);
    forall n | true
      ensures !Contains(l0, InstructionPrefix + n)
    {
      AbsentCharNotContained(l0, InstructionPrefix + n, 'I');
    }
  }

  lemma ToStringLineKeepsFlag(l1: string)
    requires l1 == "Program log: Instruction: toString"
    ensures Step(true, l1)
  {
    AbsentCharNotContained(l1, "invoke", 'v');
    AbsentCharNotContained(l1, "success", 'e');
  }

  lemma FlagSetOnBothLines(lines: seq<string>)
    requires lines == ["Program SiLKos invoke [1]", "Program log: Instruction: toString"]
    ensures FlagAfter(lines, 1) && FlagAfter(lines, 2)
  {
    InvokeLineSetsFlag(lines[0]);
    ToStringLineKeepsFlag(lines[1]);
  }

  lemma InheritedNamePushedAsWritten(lines: seq<string>)
    requires lines == ["Program SiLKos invoke [1]", "Program log: Instruction: toString"]
    ensures ClassifiedAsWritten(lines, |lines|) == [Inherited("toString")]
  {
    InvokeLineSetsFlag(lines[0]);
    ToStringLineName(lines[1]);
    FlagSetOnBothLines(lines);
    assert ClassifiedAsWritten(lines, 1) == [];
  }

  lemma InheritedNameIgnored(lines: seq<string>)
    requires lines == ["Program SiLKos invoke [1]", "Program log: Instruction: toString"]
    ensures Classify(Some(lines)) == []
  {
    InvokeLineSetsFlag(lines[0]);
    ToStringLineName(lines[1]);
    assert Classified(lines, 1) == [];
  }

  /** A log line `Instruction: toString` inside the program is pushed as
      written (an inherited function, which no event-kind column accepts),
      while unknown names are meant to be ignored. */
  lemma InheritedNameIsPushed(lines: seq<string>)
    requires lines == ["Program SiLKos invoke [1]", "Program log: Instruction: toString"]
    ensures ClassifiedAsWritten(lines, |lines|) == [Inherited("toString")]
    ensures Classify(Some(lines)) == []
  {
    InheritedNamePushedAsWritten(lines);
    InheritedNameIgnored(lines);
  }
}
