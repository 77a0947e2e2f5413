// The single forward scan of Method.CalculateMaxStack against the depth
// assignment of a stack discipline (section III.1.7.5 of ECMA-335).
module MaxStack {
  import opened Bytes
  import opened Opcodes
  import opened Instructions
  import opened Liveness
  import opened StackEffects

  datatype StackError = StackUnderflow | MismatchedStack(name: string) | StackNotEmpty

  function StackUsage(i: Instr): int {
    if i.op == SEH then
      if i.sehBegin && i.sehKind in {SehFilter, SehFilterHandler, SehCatch} then 1 else 0
    else if i.op in {LEAVE, LEAVE_S, ENDFINALLY, ENDFAULT} then 0
    else if i.op == ENDFILTER then -1
    else if i.op in {CALL, CALLI, CALLVIRT, NEWOBJ} && i.operand.CallOperand? then
      (if i.operand.hasResult then 1 else 0) - i.operand.arguments
      - (if i.op != NEWOBJ && i.operand.instanceCall then 1 else 0)
      + TableRow(i.op).stack
    else TableRow(i.op).stack
  }

  // The scan takes a usage of -127 for "empties the stack". No row of the
  // opcode table has it, but a call may.
  const EMPTIES := -127

  function Held(i: Instr, n: int): int {
    if StackUsage(i) == EMPTIES then 0 else n + StackUsage(i)
  }

  // ---- The scan ----

  type Depths = map<string, int>

  datatype Scan =
    | Scanning(n: int, max: int, lastBranch: bool, labels: Depths)
    | Failed(error: StackError)

  // Meets a reference to a label at depth n.
  function Note(labels: Depths, name: string, n: int): Option<Depths> {
    if name !in labels then Some(labels[name := n])
    else if labels[name] == n then Some(labels)
    else None
  }

  function NoteAll(labels: Depths, names: seq<string>, n: int): (r: Scan)
    ensures r.Failed? || r == Scanning(n, 0, false, r.labels)
    decreases |names|
  {
    if names == [] then Scanning(n, 0, false, labels)
    else match Note(labels, names[0], n)
      case None => Failed(MismatchedStack(names[0]))
      case Some(noted) => NoteAll(noted, names[1..], n)
  }

  function Met(s: Scan, i: Instr): Scan
    requires s.Scanning?
  {
    if !i.live then s
    else
      var n := Held(i, s.n);
      var max := if n > s.max then n else s.max;
      if n < 0 then Failed(StackUnderflow)
      else if IsBranch(i.op) then
        match Note(s.labels, Name(i), n)
        case None => Failed(MismatchedStack(Name(i)))
        case Some(labels) => Scanning(n, max, true, labels)
      else if i.op == SWITCH then
        match NoteAll(s.labels, i.switches, n)
        case Failed(e) => Failed(e)
        case Scanning(_, _, _, labels) => Scanning(n, max, s.lastBranch, labels)
      else if i.op == LABEL then
        if s.lastBranch then
          Scanning(if Name(i) in s.labels then s.labels[Name(i)] else 0, max, true, s.labels)
        else
          match Note(s.labels, Name(i), n)
          case None => Failed(MismatchedStack(Name(i)))
          case Some(labels) => Scanning(n, max, false, labels)
      else if i.op == COMMENT then Scanning(n, max, s.lastBranch, s.labels)
      else Scanning(n, max, false, s.labels)
  }

  function ScanTo(code: seq<Instr>, k: nat): Scan
    requires k <= |code|
  {
    if k == 0 then Scanning(0, 0, false, map[])
    else
      var before := ScanTo(code, k - 1);
      if before.Failed? then before else Met(before, code[k - 1])
  }

  datatype Verdict = Accepted(maxStack: int) | Rejected(error: StackError)

  function Scanned(code: seq<Instr>, returnsVoid: bool): Verdict {
    match ScanTo(code, |code|)
    case Failed(e) => Rejected(e)
    case Scanning(n, max, _, _) =>
      if n != 0 && (n != 1 || returnsVoid) then Rejected(StackNotEmpty) else Accepted(max)
  }

  method CalculateMaxStack(code: seq<Instr>, returnsVoid: bool) returns (verdict: Verdict)
    ensures verdict == Scanned(code, returnsVoid)
  {
    hide TableRow, StackUsage;
    var labels: Depths := map[];
    var maxStack := 0;
    var n := 0;
    var lastBranch := false;
    var i := 0;
    while i < |code|
      invariant i <= |code|
      invariant ScanTo(code, i) == Scanning(n, maxStack, lastBranch, labels)
      invariant forall e :: ScanTo(code, i) != Failed(e)
    {
      var instruction := code[i];
      FailureStays(code, i + 1, |code|);
      if instruction.live {
        var m := StackUsage(instruction);
        if m == EMPTIES { n := 0; } else { n := n + m; }
        if n > maxStack { maxStack := n; }
        if n < 0 { return Rejected(StackUnderflow); }
        if IsBranch(instruction.op) {
          lastBranch := true;
          var name := Name(instruction);
          if name in labels {
            if labels[name] != n { return Rejected(MismatchedStack(name)); }
          } else {
            labels := labels[name := n];
          }
        } else if instruction.op == SWITCH {
          var noted := NoteSwitch(labels, instruction.switches, n);
          if noted.Failed? { return Rejected(noted.error); }
          labels := noted.labels;
        } else if instruction.op == LABEL {
          var name := Name(instruction);
          if lastBranch {
            n := if name in labels then labels[name] else 0;
          } else if name in labels {
            if labels[name] != n { return Rejected(MismatchedStack(name)); }
          } else {
            labels := labels[name := n];
          }
        } else if instruction.op == COMMENT {
        } else {
          lastBranch := false;
        }
      }
      i := i + 1;
    }
    if n != 0 {
      if n != 1 || returnsVoid { return Rejected(StackNotEmpty); }
    }
    return Accepted(maxStack);
  }

  method NoteSwitch(before: Depths, names: seq<string>, n: int) returns (r: Scan)
    ensures r == NoteAll(before, names, n)
  {
    var labels := before;
    var k := 0;
    while k < |names|
      invariant k <= |names|
      invariant NoteAll(before, names, n) == NoteAll(labels, names[k..], n)
    {
      if names[k] in labels {
        if labels[names[k]] != n { return Failed(MismatchedStack(names[k])); }
      } else {
        labels := labels[names[k] := n];
      }
      assert names[k..][1..] == names[k + 1..];
      k := k + 1;
    }
    return Scanning(n, 0, false, labels);
  }

  lemma {:induction false} FailureStays(code: seq<Instr>, k: nat, m: nat)
    requires k <= m <= |code|
    ensures ScanTo(code, k).Failed? ==> ScanTo(code, m) == ScanTo(code, k)
    decreases m
  {
    hide TableRow, StackUsage;
    if k < m {
      FailureStays(code, k, m - 1);
    }
  }

  // ---- A stack discipline ----

  // What an instruction of a body takes from the stack; ret takes the value
  // the method returns.
  function Pops(i: Instr, returnsVoid: bool): nat {
    if IsPseudo(i.op) then 0
    else match EcmaEffect(i.op)
      case Moves(pops, _) => pops
      case BySignature =>
        if i.op == RET then (if returnsVoid then 0 else 1)
        else if !i.operand.CallOperand? then 0
        else
          i.operand.arguments
          + (if i.op != NEWOBJ && i.operand.instanceCall then 1 else 0)
          + (if i.op == CALLI then 1 else 0)
  }

  // What it puts there; the exception lies on the stack where a handler or a
  // filter begins.
  function Pushes(i: Instr): nat {
    if i.op == SEH then (if i.sehBegin && i.sehKind !in {SehTry, SehFinally, SehFault} then 1 else 0)
    else if IsPseudo(i.op) then 0
    else match EcmaEffect(i.op)
      case Moves(_, pushes) => pushes
      case BySignature =>
        if i.op == NEWOBJ then 1 else if i.op != RET && i.operand.CallOperand? && i.operand.hasResult then 1 else 0
  }

  // The depth an instruction leaves; leave empties the stack.
  function After(i: Instr, depth: int, returnsVoid: bool): int {
    if i.op == LEAVE || i.op == LEAVE_S then 0 else depth - Pops(i, returnsVoid) + Pushes(i)
  }

  // Control goes on to the next instruction, at least sometimes.
  predicate FallsThrough(i: Instr) {
    && i.op !in {BR, BR_S, LEAVE, LEAVE_S, RET, THROW, RETHROW, JMP, ENDFINALLY, ENDFAULT, ENDFILTER}
    && (i.op == SEH ==> i.sehBegin)
  }

  // The depth before each live instruction, in agreement with what every live
  // instruction does to the stack by ECMA-335, on every edge of the control
  // flow. Exception blocks are entered with an empty stack, and ret leaves none
  // behind.
  ghost predicate Disciplined(code: seq<Instr>, depth: seq<nat>, returnsVoid: bool) {
    && |depth| == |code|
    && (|code| > 0 ==> depth[0] == 0)
    && (forall i :: 0 <= i < |code| && code[i].live && OpensSeh(code[i]) ==> depth[i] == 0)
    && (forall i :: 0 <= i < |code| && code[i].live ==> Pops(code[i], returnsVoid) <= depth[i])
    && (forall i :: 0 <= i < |code| && code[i].live && code[i].op == RET ==> depth[i] == Pops(code[i], returnsVoid))
    && (forall i :: 0 <= i < |code| - 1 && code[i].live && FallsThrough(code[i]) ==>
          depth[i + 1] == After(code[i], depth[i], returnsVoid))
    && (forall i: nat, l: nat :: i < |code| && code[i].live && Targets(code, i, l) ==>
          depth[l] == After(code[i], depth[i], returnsVoid))
  }

  // Calls come with the signature of what they call.
  predicate Signed(i: Instr) { i.op in {CALL, CALLI, CALLVIRT, NEWOBJ} ==> i.operand.CallOperand? }

  // Everything control can reach is flagged as live, as CalculateLive does;
  // labels are distinct and every reference has its label.
  ghost predicate WellFlagged(code: seq<Instr>) {
    && Closed(code, LiveSet(code))
    && (forall i, j :: 0 <= i < j < |code| && code[i].op == LABEL && code[j].op == LABEL ==> Name(code[i]) != Name(code[j]))
    && (forall i, name :: 0 <= i < |code| && code[i].live && name in NamesOf(code[i]) ==> HasLabel(code, name))
    && (forall i :: 0 <= i < |code| && code[i].live ==> Signed(code[i]))
  }

  ghost function LiveSet(code: seq<Instr>): set<nat> {
    set i: nat | i < |code| && code[i].live
  }

  ghost predicate HasLabel(code: seq<Instr>, name: string) {
    exists l: nat :: IsLabelled(code, l, name)
  }

  predicate IsLabelled(code: seq<Instr>, l: nat, name: string) {
    l < |code| && code[l].op == LABEL && Name(code[l]) == name
  }

  // ---- Where the scan counts as the standard does ----

  // What StackUsage counts too much.
  function Extra(i: Instr, returnsVoid: bool): nat {
    if i.op == CPOBJ || i.op == LDVIRTFTN then 1
    else if i.op == THROW then 2
    else if i.op == RET then (if returnsVoid then 0 else 1)
    else if i.op == NEWOBJ && i.operand.CallOperand? && i.operand.hasResult then 1
    else 0
  }

  // The usage of an instruction is what it pushes less what it pops, but for
  // cpobj, ldvirtftn, throw, a ret that returns a value, and newobj of a
  // constructor that is said to return one.
  lemma StackUsageIsEcma(i: Instr, returnsVoid: bool)
    requires Signed(i)
    ensures StackUsage(i) == Pushes(i) - Pops(i, returnsVoid) + Extra(i, returnsVoid)
  {
    TableStackIsEcma(i.op);
    PseudoUsage(i.op);
    ClosingUsage();
    hide TableRow, EcmaEffect;
    match i.sehKind { case SehTry => case SehCatch => case SehFinally => case SehFault => case SehFilter => case SehFilterHandler => }
  }

  lemma PseudoUsage(op: Opcode)
    ensures IsPseudo(op) ==> TableRow(op).stack == 0
  {
  }

  lemma ClosingUsage()
    ensures forall op: Opcode :: op in {LEAVE, LEAVE_S, ENDFINALLY, ENDFAULT} ==> TableRow(op).stack == 0
    ensures TableRow(ENDFILTER).stack == -1
  {
  }

  // The scan goes on with the depth the instruction leaves exactly when its
  // usage is right; leave must find an empty stack, and a usage of -127 just
  // the values it takes.
  lemma HeldIsAfterIff(i: Instr, depth: nat, returnsVoid: bool)
    requires Signed(i)
    ensures Held(i, depth) == After(i, depth, returnsVoid) <==>
              if i.op == LEAVE || i.op == LEAVE_S then depth == 0
              else if StackUsage(i) == EMPTIES then depth == Pops(i, returnsVoid) - Pushes(i)
              else Extra(i, returnsVoid) == 0
  {
    StackUsageIsEcma(i, returnsVoid);
    LeaveUsage(i);
    hide TableRow, StackUsage, Pops, Pushes;
  }

  lemma LeaveUsage(i: Instr)
    ensures i.op == LEAVE || i.op == LEAVE_S ==> StackUsage(i) == 0
  {
  }

  // ---- What the scan has to go by ----

  // The flag of the scan: only labels, comments and switches came after the
  // last branch.
  ghost predicate AfterBranch(code: seq<Instr>, k: nat)
    requires k <= |code|
  {
    k > 0 &&
    if !code[k - 1].live || code[k - 1].op in {SWITCH, LABEL, COMMENT} then AfterBranch(code, k - 1)
    else IsBranch(code[k - 1].op)
  }

  ghost predicate ReferredBefore(code: seq<Instr>, k: nat, name: string)
    requires k <= |code|
  {
    exists j: nat :: j < k && code[j].live && name in NamesOf(code[j])
  }

  ghost predicate MetBefore(code: seq<Instr>, k: nat, name: string)
    requires k <= |code|
  {
    exists j: nat :: j < k && IsLabelled(code, j, name)
  }

  // What the scan holds after the last live instruction before k.
  ghost function DepthOut(code: seq<Instr>, depth: seq<nat>, k: nat): int
    requires k <= |code| == |depth|
  {
    if k == 0 then 0
    else if code[k - 1].live then Held(code[k - 1], depth[k - 1])
    else DepthOut(code, depth, k - 1)
  }

  // It counts right wherever control goes on from an instruction.
  ghost predicate CountsRight(code: seq<Instr>, depth: seq<nat>, returnsVoid: bool, l: nat)
    requires l < |code| == |depth|
  {
    code[l].live && (NamesOf(code[l]) != {} || (FallsThrough(code[l]) && l + 1 < |code|)) ==>
      Held(code[l], depth[l]) == After(code[l], depth[l], returnsVoid)
  }

  ghost predicate LabelAfterBranch(code: seq<Instr>, l: nat)
    requires l < |code|
  {
    code[l].op == LABEL && AfterBranch(code, l)
  }

  // At a label after a branch where it has nothing to go by it takes the stack
  // to be empty.
  ghost predicate EmptyIfUnknown(code: seq<Instr>, depth: seq<nat>, l: nat)
    requires l < |code| == |depth|
  {
    code[l].live && LabelAfterBranch(code, l) ==> ReferredBefore(code, l, Name(code[l])) || depth[l] == 0
  }

  ghost predicate FallenInto(code: seq<Instr>, l: nat)
    requires l < |code|
  {
    l == 0 || (code[l - 1].live && FallsThrough(code[l - 1]))
  }

  // Elsewhere it goes on with what the code before has left, though control
  // does not come from there.
  ghost predicate CarriesOver(code: seq<Instr>, depth: seq<nat>, l: nat)
    requires l < |code| == |depth|
  {
    code[l].live && !FallenInto(code, l) && !LabelAfterBranch(code, l) ==> DepthOut(code, depth, l) == depth[l]
  }

  ghost predicate GuessedRight(code: seq<Instr>, depth: seq<nat>, returnsVoid: bool, l: nat)
    requires l < |code| == |depth|
  {
    CountsRight(code, depth, returnsVoid, l) && EmptyIfUnknown(code, depth, l) && CarriesOver(code, depth, l)
  }

  ghost predicate GuessesRight(code: seq<Instr>, depth: seq<nat>, returnsVoid: bool)
    requires |depth| == |code|
  {
    forall l: nat :: l < |code| ==> GuessedRight(code, depth, returnsVoid, l)
  }

  // The scan gets past instruction i with the depth before it in hand, and
  // all it has noted for labels is right.
  ghost predicate HoldsAt(code: seq<Instr>, depth: seq<nat>, i: nat)
    requires i < |code| == |depth|
  {
    var before, after := ScanTo(code, i), ScanTo(code, i + 1);
    && after.Scanning? && NamesTrack(code, depth, after.labels)
    && if code[i].op == LABEL then after.n == depth[i] else before.Scanning? && before.n == depth[i]
  }

  ghost predicate HoldsDepths(code: seq<Instr>, depth: seq<nat>)
    requires |depth| == |code|
  {
    forall i: nat :: i < |code| && code[i].live ==> HoldsAt(code, depth, i)
  }

  // What the scan asks for at the end.
  ghost predicate EndsWell(code: seq<Instr>, depth: seq<nat>, returnsVoid: bool)
    requires |depth| == |code|
  {
    var left := DepthOut(code, depth, |code|);
    left == 0 || (left == 1 && !returnsVoid)
  }

  // ---- What the scan knows ----

  ghost function MaxOut(code: seq<Instr>, depth: seq<nat>, k: nat): int
    requires k <= |code| == |depth|
  {
    if k == 0 then 0
    else
      var before := MaxOut(code, depth, k - 1);
      if code[k - 1].live && Held(code[k - 1], depth[k - 1]) > before then Held(code[k - 1], depth[k - 1])
      else before
  }

  ghost predicate DepthOfName(code: seq<Instr>, depth: seq<nat>, name: string, n: int)
    requires |depth| == |code|
  {
    forall l: nat :: IsLabelled(code, l, name) ==> depth[l] == n
  }

  ghost predicate NamesTrack(code: seq<Instr>, depth: seq<nat>, labels: Depths)
    requires |depth| == |code|
  {
    forall name :: name in labels ==> DepthOfName(code, depth, name, labels[name])
  }

  ghost predicate Bounded(labels: Depths, max: int) {
    forall name :: name in labels ==> labels[name] <= max
  }

  ghost predicate Tracks(code: seq<Instr>, depth: seq<nat>, k: nat, s: Scan)
    requires k <= |code| == |depth|
  {
    && s.Scanning?
    && s.n == DepthOut(code, depth, k)
    && s.max == MaxOut(code, depth, k)
    && s.lastBranch == AfterBranch(code, k)
    && NamesTrack(code, depth, s.labels)
    && Bounded(s.labels, s.max)
    && (forall name :: ReferredBefore(code, k, name) ==> name in s.labels)
    && (forall name :: name in s.labels ==> ReferredBefore(code, k, name) || MetBefore(code, k, name))
  }

  lemma NoteTracks(code: seq<Instr>, depth: seq<nat>, labels: Depths, name: string, n: int)
    requires |depth| == |code| && NamesTrack(code, depth, labels)
    requires HasLabel(code, name) && DepthOfName(code, depth, name, n)
    ensures Note(labels, name, n).Some?
    ensures var noted := Note(labels, name, n).value;
            NamesTrack(code, depth, noted) && noted.Keys == labels.Keys + {name}
    ensures forall max :: Bounded(labels, max) && n <= max ==> Bounded(Note(labels, name, n).value, max)
  {
    hide TableRow;
  }

  lemma {:induction false} NoteAllTracks(code: seq<Instr>, depth: seq<nat>, labels: Depths, names: seq<string>, n: int)
    requires |depth| == |code| && NamesTrack(code, depth, labels)
    requires forall name :: name in names ==> HasLabel(code, name) && DepthOfName(code, depth, name, n)
    ensures NoteAll(labels, names, n).Scanning?
    ensures var noted := NoteAll(labels, names, n).labels;
            NamesTrack(code, depth, noted) && noted.Keys == labels.Keys + set i | 0 <= i < |names| :: names[i]
    ensures forall max :: Bounded(labels, max) && n <= max ==> Bounded(NoteAll(labels, names, n).labels, max)
    decreases |names|
  {
    hide TableRow, HasLabel, DepthOfName, NamesTrack;
    if names != [] {
      NoteTracks(code, depth, labels, names[0], n);
      NoteAllTracks(code, depth, Note(labels, names[0], n).value, names[1..], n);
      FirstAndRest(names);
    }
  }

  lemma FirstAndRest(names: seq<string>)
    requires names != []
    ensures (set i | 0 <= i < |names| :: names[i])
         == {names[0]} + (set i | 0 <= i < |names[1..]| :: names[1..][i])
  {
    var all, rest := set i | 0 <= i < |names| :: names[i], set i | 0 <= i < |names[1..]| :: names[1..][i];
    forall name | name in all ensures name in {names[0]} + rest {
      var i :| 0 <= i < |names| && names[i] == name;
      if i > 0 { assert names[1..][i - 1] == name; }
    }
    forall name | name in rest ensures name in all {
      var i :| 0 <= i < |names[1..]| && names[1..][i] == name;
      assert names[i + 1] == name;
    }
  }

  // Before an instruction that is no label after a branch, the scan holds its
  // depth.
  lemma EntryDepth(code: seq<Instr>, depth: seq<nat>, returnsVoid: bool, k: nat)
    requires Disciplined(code, depth, returnsVoid) && k < |code| && code[k].live && !LabelAfterBranch(code, k)
    requires CarriesOver(code, depth, k) && (k > 0 ==> CountsRight(code, depth, returnsVoid, k - 1))
    ensures DepthOut(code, depth, k) == depth[k]
  {
    hide TableRow, NamesOf, After, Pops, Held, Targets, FallsThrough;
  }

  lemma ReferencesAgree(code: seq<Instr>, depth: seq<nat>, returnsVoid: bool, k: nat, name: string)
    requires WellFlagged(code) && Disciplined(code, depth, returnsVoid) && k < |code| && code[k].live
    requires name in NamesOf(code[k]) && CountsRight(code, depth, returnsVoid, k)
    ensures HasLabel(code, name) && DepthOfName(code, depth, name, Held(code[k], depth[k]))
  {
    hide TableRow, NamesOf, After, Pops, Held, FallsThrough;
    forall l: nat | IsLabelled(code, l, name) ensures depth[l] == Held(code[k], depth[k]) {
      assert Targets(code, k, l);
    }
  }

  lemma ReferredStep(code: seq<Instr>, k: nat, name: string)
    requires k < |code|
    ensures ReferredBefore(code, k + 1, name) <==>
              ReferredBefore(code, k, name) || (code[k].live && name in NamesOf(code[k]))
    ensures MetBefore(code, k + 1, name) <==> MetBefore(code, k, name) || IsLabelled(code, k, name)
  {
    hide TableRow, NamesOf, IsLabelled;
  }

  // The name of a label is recorded before it only through a reference.
  lemma NotMetBefore(code: seq<Instr>, k: nat)
    requires WellFlagged(code) && k < |code| && code[k].op == LABEL
    ensures !MetBefore(code, k, Name(code[k]))
  {
    hide TableRow, NamesOf;
  }

  lemma LabelUsage(i: Instr)
    requires i.op == LABEL
    ensures StackUsage(i) == 0 && !IsBranch(i.op) && NamesOf(i) == {}
  {
  }

  lemma NamesOfKind(i: Instr)
    ensures IsBranch(i.op) ==> NamesOf(i) == {Name(i)} && i.op !in {SWITCH, LABEL, COMMENT}
    ensures i.op == SWITCH ==> NamesOf(i) == set k | 0 <= k < |i.switches| :: i.switches[k]
    ensures !IsBranch(i.op) && i.op != SWITCH ==> NamesOf(i) == {}
  {
    BranchKind(i.op);
    hide TableRow;
  }

  lemma BranchKind(op: Opcode)
    ensures IsBranch(op) ==> op !in {SWITCH, LABEL, COMMENT}
  {
  }

  // The scan keeps knowing the depths, one live instruction at a time.
  lemma LiveStep(code: seq<Instr>, depth: seq<nat>, returnsVoid: bool, k: nat, s: Scan)
    requires WellFlagged(code) && Disciplined(code, depth, returnsVoid)
    requires k < |code| && code[k].live && GuessedRight(code, depth, returnsVoid, k)
    requires k > 0 ==> GuessedRight(code, depth, returnsVoid, k - 1)
    requires Tracks(code, depth, k, s)
    ensures Tracks(code, depth, k + 1, Met(s, code[k]))
  {
    hide TableRow, NamesOf, StackUsage, HasLabel, DepthOfName, NamesTrack, IsBranch, Note, NoteAll, After, Pops, Pushes, FallsThrough,
         CountsRight, EmptyIfUnknown, CarriesOver, IsLabelled;
    var i := code[k];
    NamesOfKind(i);
    HeldIsNat(code, depth, returnsVoid, k);
    forall name
      ensures ReferredBefore(code, k + 1, name) <==> ReferredBefore(code, k, name) || name in NamesOf(i)
      ensures MetBefore(code, k + 1, name) <==> MetBefore(code, k, name) || IsLabelled(code, k, name)
    {
      ReferredStep(code, k, name);
    }
    hide ReferredBefore, MetBefore;
    if i.op == LABEL {
      LabelStep(code, depth, returnsVoid, k, s);
    } else {
      EntryDepth(code, depth, returnsVoid, k);
      var n := Held(i, depth[k]);
      hide Held;
      forall name | name in NamesOf(i) ensures HasLabel(code, name) && DepthOfName(code, depth, name, n) {
        ReferencesAgree(code, depth, returnsVoid, k, name);
      }
      if IsBranch(i.op) {
        NoteTracks(code, depth, s.labels, Name(i), n);
      } else if i.op == SWITCH {
        NoteAllTracks(code, depth, s.labels, i.switches, n);
      }
    }
  }

  lemma LabelStep(code: seq<Instr>, depth: seq<nat>, returnsVoid: bool, k: nat, s: Scan)
    requires WellFlagged(code) && Disciplined(code, depth, returnsVoid)
    requires k < |code| && code[k].live && code[k].op == LABEL
    requires GuessedRight(code, depth, returnsVoid, k) && (k > 0 ==> GuessedRight(code, depth, returnsVoid, k - 1))
    requires Tracks(code, depth, k, s)
    requires forall name :: ReferredBefore(code, k + 1, name) <==> ReferredBefore(code, k, name)
    requires forall name :: MetBefore(code, k + 1, name) <==> MetBefore(code, k, name) || IsLabelled(code, k, name)
    ensures Tracks(code, depth, k + 1, Met(s, code[k]))
  {
    assert |depth| == |code|;
    var i := code[k];
    var name := Name(i);
    BelowZero(code, depth, returnsVoid, k);
    OnlyHere(code, depth, k);
    LabelOut(code, depth, k);
    if s.lastBranch {
      TakenDepth(code, depth, k, s);
      MetAfterBranch(s, i);
    } else {
      EntryDepth(code, depth, returnsVoid, k);
      NoteTracks(code, depth, s.labels, name, depth[k]);
      MetLabel(s, i);
    }
    hide TableRow, NamesOf, StackUsage, Held, Met, ReferredBefore, MetBefore, NamesTrack, Note, GuessedRight, Disciplined, WellFlagged,
         DepthOut, MaxOut, DepthOfName, HasLabel, IsBranch;
  }

  // The depth taken at a label after a branch is right.
  lemma TakenDepth(code: seq<Instr>, depth: seq<nat>, k: nat, s: Scan)
    requires k < |code| == |depth| && code[k].live && code[k].op == LABEL && s.Scanning? && s.lastBranch
    requires EmptyIfUnknown(code, depth, k) && Tracks(code, depth, k, s)
    ensures var name := Name(code[k]); (if name in s.labels then s.labels[name] else 0) == depth[k]
  {
    hide TableRow, NamesOf, StackUsage, Held, DepthOut, MaxOut, MetBefore, NamesTrack, DepthOfName;
    var name := Name(code[k]);
    if name in s.labels {
      assert IsLabelled(code, k, name);
      TracksName(code, depth, s.labels, name);
      NamedDepth(code, depth, name, s.labels[name], k);
    }
  }

  lemma NamedDepth(code: seq<Instr>, depth: seq<nat>, name: string, n: int, l: nat)
    requires |depth| == |code| && DepthOfName(code, depth, name, n) && IsLabelled(code, l, name)
    ensures depth[l] == n
  {
    hide TableRow;
  }

  // A label keeps the depth.
  lemma LabelOut(code: seq<Instr>, depth: seq<nat>, k: nat)
    requires k < |code| == |depth| && code[k].live && code[k].op == LABEL
    ensures DepthOut(code, depth, k + 1) == depth[k] && AfterBranch(code, k + 1) == AfterBranch(code, k)
    ensures MaxOut(code, depth, k + 1) == if depth[k] > MaxOut(code, depth, k) then depth[k] else MaxOut(code, depth, k)
  {
    LabelUsage(code[k]);
    hide TableRow, StackUsage, NamesOf;
  }

  lemma MetAfterBranch(s: Scan, i: Instr)
    requires s.Scanning? && i.live && i.op == LABEL && s.lastBranch && 0 <= s.n <= s.max
    ensures Met(s, i) == Scanning(if Name(i) in s.labels then s.labels[Name(i)] else 0, s.max, true, s.labels)
  {
    LabelUsage(i);
    hide TableRow, StackUsage, NamesOf;
  }

  lemma MetLabel(s: Scan, i: Instr)
    requires s.Scanning? && i.live && i.op == LABEL && !s.lastBranch && 0 <= s.n <= s.max
    ensures Met(s, i) == match Note(s.labels, Name(i), s.n)
                         case None => Failed(MismatchedStack(Name(i)))
                         case Some(labels) => Scanning(s.n, s.max, false, labels)
  {
    LabelUsage(i);
    hide TableRow, StackUsage, NamesOf;
  }

  lemma TracksName(code: seq<Instr>, depth: seq<nat>, labels: Depths, name: string)
    requires |depth| == |code| && NamesTrack(code, depth, labels) && name in labels
    ensures DepthOfName(code, depth, name, labels[name])
  {
    hide TableRow, DepthOfName;
  }

  lemma OnlyHere(code: seq<Instr>, depth: seq<nat>, k: nat)
    requires WellFlagged(code) && k < |code| == |depth| && code[k].op == LABEL
    ensures HasLabel(code, Name(code[k])) && DepthOfName(code, depth, Name(code[k]), depth[k])
  {
    hide TableRow;
    assert IsLabelled(code, k, Name(code[k]));
  }

  // An instruction that finds what it takes never makes the scan negative.
  lemma HeldIsNat(code: seq<Instr>, depth: seq<nat>, returnsVoid: bool, i: nat)
    requires WellFlagged(code) && Disciplined(code, depth, returnsVoid) && i < |code| && code[i].live
    ensures Held(code[i], depth[i]) >= 0
  {
    hide TableRow, StackUsage, Pops, Pushes, NamesOf, After, FallsThrough, Targets;
    StackUsageIsEcma(code[i], returnsVoid);
  }

  lemma {:induction false} BelowZero(code: seq<Instr>, depth: seq<nat>, returnsVoid: bool, k: nat)
    requires WellFlagged(code) && Disciplined(code, depth, returnsVoid) && k <= |code|
    ensures |depth| == |code| && 0 <= DepthOut(code, depth, k) <= MaxOut(code, depth, k)
  {
    assert |depth| == |code|;
    hide TableRow, NamesOf, After, Held, WellFlagged, Disciplined;
    if k > 0 {
      BelowZero(code, depth, returnsVoid, k - 1);
      if code[k - 1].live {
        HeldIsNat(code, depth, returnsVoid, k - 1);
      }
    }
  }

  lemma DeadStep(code: seq<Instr>, depth: seq<nat>, k: nat, s: Scan)
    requires k < |code| == |depth| && !code[k].live && Tracks(code, depth, k, s)
    ensures Tracks(code, depth, k + 1, s)
  {
    hide TableRow, NamesOf, StackUsage, NamesTrack, Bounded, IsLabelled, Held;
    forall name
      ensures ReferredBefore(code, k + 1, name) <==> ReferredBefore(code, k, name)
      ensures MetBefore(code, k, name) ==> MetBefore(code, k + 1, name)
    {
      ReferredStep(code, k, name);
    }
    hide ReferredBefore, MetBefore;
  }

  lemma NothingTracked(code: seq<Instr>, depth: seq<nat>)
    requires |depth| == |code|
    ensures Tracks(code, depth, 0, Scanning(0, 0, false, map[]))
  {
    hide TableRow, NamesOf, Held;
  }

  lemma {:induction false} ScanTracks(code: seq<Instr>, depth: seq<nat>, returnsVoid: bool, k: nat)
    requires WellFlagged(code) && Disciplined(code, depth, returnsVoid) && k <= |code|
    requires forall l: nat :: l < k ==> GuessedRight(code, depth, returnsVoid, l)
    ensures Tracks(code, depth, k, ScanTo(code, k))
  {
    assert |depth| == |code|;
    hide TableRow, NamesOf, StackUsage, WellFlagged, Disciplined, GuessedRight, Tracks, Met;
    if k == 0 {
      NothingTracked(code, depth);
    } else {
      ScanTracks(code, depth, returnsVoid, k - 1);
      assert ScanTo(code, k - 1).Scanning? by { TracksScans(code, depth, k - 1); }
      if code[k - 1].live {
        LiveStep(code, depth, returnsVoid, k - 1, ScanTo(code, k - 1));
      } else {
        DeadStep(code, depth, k - 1, ScanTo(code, k - 1));
        DeadIsSkipped(ScanTo(code, k - 1), code[k - 1]);
      }
    }
  }

  lemma TracksScans(code: seq<Instr>, depth: seq<nat>, k: nat)
    requires k <= |code| == |depth| && Tracks(code, depth, k, ScanTo(code, k))
    ensures ScanTo(code, k).Scanning?
  {
    hide ScanTo;
  }

  lemma DeadIsSkipped(s: Scan, i: Instr)
    requires s.Scanning? && !i.live
    ensures Met(s, i) == s
  {
    hide Held;
  }

  // ---- What right depths mean for the guesses ----

  // With the depth before an instruction in hand, the scan goes on with what
  // it takes the instruction to leave.
  lemma NextHeld(code: seq<Instr>, depth: seq<nat>, i: nat)
    requires i < |code| == |depth| && code[i].live && code[i].op != LABEL && HoldsAt(code, depth, i)
    ensures ScanTo(code, i + 1).Scanning? && ScanTo(code, i + 1).n == Held(code[i], depth[i])
    ensures forall name :: name in NamesOf(code[i]) ==>
              name in ScanTo(code, i + 1).labels && ScanTo(code, i + 1).labels[name] == Held(code[i], depth[i])
  {
    NamesOfKind(code[i]);
    hide TableRow, NamesOf, Held, IsBranch, NamesTrack;
    var s := ScanTo(code, i);
    assert ScanTo(code, i + 1) == Met(s, code[i]);
    if code[i].op == SWITCH {
      NoteAllNotes(s.labels, code[i].switches, Held(code[i], depth[i]));
    }
  }

  lemma {:induction false} NoteAllNotes(labels: Depths, names: seq<string>, n: int)
    requires NoteAll(labels, names, n).Scanning?
    ensures var noted := NoteAll(labels, names, n).labels;
            && (forall k :: 0 <= k < |names| ==> names[k] in noted && noted[names[k]] == n)
            && (forall name :: name in labels ==> name in noted && noted[name] == labels[name])
    decreases |names|
  {
    if names != [] {
      NoteAllNotes(Note(labels, names[0], n).value, names[1..], n);
      forall k | 1 <= k < |names| ensures names[k] == names[1..][k - 1] {
      }
    }
  }

  lemma CountedRight(code: seq<Instr>, depth: seq<nat>, returnsVoid: bool, l: nat)
    requires WellFlagged(code) && Disciplined(code, depth, returnsVoid) && l < |code| && HoldsDepths(code, depth)
    ensures CountsRight(code, depth, returnsVoid, l)
  {
    assert |depth| == |code|;
    var i := code[l];
    if i.live {
      if NamesOf(i) != {} {
        ReferenceCounted(code, depth, returnsVoid, l);
      } else if FallsThrough(i) && l + 1 < |code| {
        FallCounted(code, depth, returnsVoid, l);
      }
    }
    hide TableRow, NamesOf, Held, After, FallsThrough, HoldsAt, Targets;
  }

  lemma ReferenceCounted(code: seq<Instr>, depth: seq<nat>, returnsVoid: bool, l: nat)
    requires WellFlagged(code) && Disciplined(code, depth, returnsVoid) && l < |code| && HoldsDepths(code, depth)
    requires code[l].live && NamesOf(code[l]) != {}
    ensures Held(code[l], depth[l]) == After(code[l], depth[l], returnsVoid)
  {
    var name :| name in NamesOf(code[l]);
    NamesOfKind(code[l]);
    hide TableRow, NamesOf, Held, After, FallsThrough, Pops, ScanTo;
    assert HoldsAt(code, depth, l);
    NextHeld(code, depth, l);
    assert HasLabel(code, name);
    var target: nat :| IsLabelled(code, target, name);
    assert Targets(code, l, target);
    TracksName(code, depth, ScanTo(code, l + 1).labels, name);
  }

  lemma FallCounted(code: seq<Instr>, depth: seq<nat>, returnsVoid: bool, l: nat)
    requires WellFlagged(code) && Disciplined(code, depth, returnsVoid) && l + 1 < |code| && HoldsDepths(code, depth)
    requires code[l].live && NamesOf(code[l]) == {} && FallsThrough(code[l])
    ensures Held(code[l], depth[l]) == After(code[l], depth[l], returnsVoid)
  {
    NamesOfKind(code[l]);
    assert l in LiveSet(code);
    assert l + 1 in LiveSet(code);
    if code[l].op in {LABEL, COMMENT, SWITCH} {
      PlainUsage(code[l], depth[l], returnsVoid);
    } else {
      hide TableRow, NamesOf, Held, After, Pops, Targets, IsBranch, NamesTrack, FallsThrough;
      assert HoldsAt(code, depth, l) && HoldsAt(code, depth, l + 1);
      NextHeld(code, depth, l);
      if code[l + 1].op == LABEL {
        LabelKeeps(code, l + 1);
      }
    }
  }

  // Labels, comments and switches are counted right in any case.
  lemma PlainUsage(i: Instr, depth: nat, returnsVoid: bool)
    requires i.op in {LABEL, COMMENT, SWITCH}
    ensures Held(i, depth) == After(i, depth, returnsVoid)
  {
    SwitchUsage(i);
    HeldIsAfterIff(i, depth, returnsVoid);
    hide TableRow, StackUsage, Held, After, Pops, Pushes;
  }

  lemma SwitchUsage(i: Instr)
    requires i.op in {LABEL, COMMENT, SWITCH}
    ensures StackUsage(i) != EMPTIES
  {
  }

  // A label behind anything but a branch goes on with the depth at hand.
  lemma LabelKeeps(code: seq<Instr>, l: nat)
    requires l < |code| && code[l].live && code[l].op == LABEL && ScanTo(code, l).Scanning? && ScanTo(code, l + 1).Scanning?
    requires !ScanTo(code, l).lastBranch
    ensures ScanTo(code, l + 1).n == ScanTo(code, l).n
  {
    LabelUsage(code[l]);
    hide TableRow, StackUsage, NamesOf;
  }

  // Where no label is met after a branch, the depth carried on is the right one.
  lemma CarriedRight(code: seq<Instr>, depth: seq<nat>, returnsVoid: bool, l: nat)
    requires Disciplined(code, depth, returnsVoid) && l < |code| && HoldsDepths(code, depth)
    requires Tracks(code, depth, l, ScanTo(code, l))
    ensures CarriesOver(code, depth, l)
  {
    assert |depth| == |code|;
    if code[l].live && !LabelAfterBranch(code, l) {
      assert HoldsAt(code, depth, l);
      hide TableRow, NamesOf, Held, NamesTrack, Bounded, ReferredBefore, MetBefore, DepthOut, Disciplined;
      if code[l].op == LABEL {
        LabelKeeps(code, l);
      }
    }
  }

  lemma TakenForEmpty(code: seq<Instr>, depth: seq<nat>, l: nat)
    requires WellFlagged(code) && l < |code| == |depth| && HoldsDepths(code, depth)
    requires Tracks(code, depth, l, ScanTo(code, l))
    ensures EmptyIfUnknown(code, depth, l)
  {
    if code[l].live && LabelAfterBranch(code, l) && !ReferredBefore(code, l, Name(code[l])) {
      assert HoldsAt(code, depth, l);
      hide TableRow, NamesOf, StackUsage, WellFlagged, ReferredBefore, MetBefore, NamesTrack, Bounded;
      NotMetBefore(code, l);
      LabelUsage(code[l]);
    }
  }

  // A scan that holds the depths has not been wrong before.
  lemma {:induction false} HeldIsRight(code: seq<Instr>, depth: seq<nat>, returnsVoid: bool, l: nat)
    requires WellFlagged(code) && Disciplined(code, depth, returnsVoid) && l < |code| && HoldsDepths(code, depth)
    ensures GuessedRight(code, depth, returnsVoid, l)
  {
    assert |depth| == |code|;
    hide TableRow, NamesOf, WellFlagged, Disciplined, HoldsDepths, ScanTo, Tracks, CountsRight, EmptyIfUnknown, CarriesOver;
    forall j: nat | j < l ensures GuessedRight(code, depth, returnsVoid, j) {
      HeldIsRight(code, depth, returnsVoid, j);
    }
    ScanTracks(code, depth, returnsVoid, l);
    CountedRight(code, depth, returnsVoid, l);
    CarriedRight(code, depth, returnsVoid, l);
    TakenForEmpty(code, depth, l);
  }

  // A scan that has guessed right holds the depths.
  lemma RightIsHeld(code: seq<Instr>, depth: seq<nat>, returnsVoid: bool, l: nat)
    requires WellFlagged(code) && Disciplined(code, depth, returnsVoid) && GuessesRight(code, depth, returnsVoid)
    requires l < |code| && code[l].live
    ensures HoldsAt(code, depth, l)
    ensures 0 <= depth[l] <= MaxOut(code, depth, |code|)
  {
    assert |depth| == |code|;
    ScanTracks(code, depth, returnsVoid, l);
    ScanTracks(code, depth, returnsVoid, l + 1);
    BelowZero(code, depth, returnsVoid, l);
    BelowZero(code, depth, returnsVoid, l + 1);
    MaxGrows(code, depth, l, |code|);
    MaxGrows(code, depth, l + 1, |code|);
    DepthKnown(code, depth, returnsVoid, l);
    hide TableRow, NamesOf, WellFlagged, Disciplined, GuessesRight, ScanTo, StackUsage, NamesTrack, Bounded, ReferredBefore, MetBefore,
         DepthOut, MaxOut, AfterBranch;
  }

  // Around an instruction the scan holds its depth.
  lemma DepthKnown(code: seq<Instr>, depth: seq<nat>, returnsVoid: bool, l: nat)
    requires Disciplined(code, depth, returnsVoid) && GuessesRight(code, depth, returnsVoid) && l < |code| && code[l].live
    ensures if code[l].op == LABEL then DepthOut(code, depth, l + 1) == depth[l] else DepthOut(code, depth, l) == depth[l]
  {
    assert |depth| == |code|;
    hide TableRow, NamesOf, StackUsage, Held, Disciplined, CountsRight, EmptyIfUnknown, CarriesOver, AfterBranch, DepthOut;
    if code[l].op == LABEL {
      LabelOut(code, depth, l);
    } else {
      GuessAt(code, depth, returnsVoid, l);
      if l > 0 { GuessAt(code, depth, returnsVoid, l - 1); }
      hide GuessesRight;
      EntryDepth(code, depth, returnsVoid, l);
    }
  }

  lemma {:induction false} MaxGrows(code: seq<Instr>, depth: seq<nat>, j: nat, k: nat)
    requires j <= k <= |code| == |depth|
    ensures MaxOut(code, depth, j) <= MaxOut(code, depth, k)
    decreases k
  {
    hide TableRow, Held;
    if j < k {
      MaxGrows(code, depth, j, k - 1);
    }
  }

  lemma {:induction false} MaxOutIsMax(code: seq<Instr>, depth: seq<nat>, k: nat)
    requires k <= |code| == |depth|
    ensures MaxOut(code, depth, k) >= 0
    ensures forall i :: 0 <= i < k && code[i].live ==> Held(code[i], depth[i]) <= MaxOut(code, depth, k)
    ensures MaxOut(code, depth, k) == 0
            || exists i: nat :: i < k && code[i].live && Held(code[i], depth[i]) == MaxOut(code, depth, k)
  {
    hide TableRow, Held;
    if k > 0 {
      MaxOutIsMax(code, depth, k - 1);
    }
  }

  // ---- The greatest depth ----

  ghost predicate Reached(code: seq<Instr>, depth: seq<nat>, returnsVoid: bool, n: int)
    requires |depth| == |code|
  {
    exists i: nat :: i < |code| && code[i].live && (depth[i] == n || After(code[i], depth[i], returnsVoid) == n)
  }

  lemma {:induction false} NextLive(code: seq<Instr>, depth: seq<nat>, i: nat, k: nat) returns (m: nat)
    requires i < k <= |code| == |depth| && code[i].live
    requires forall j :: i < j < k ==> !code[j].live
    ensures k <= m <= |code| && (m < |code| ==> code[m].live) && forall j :: i < j < m ==> !code[j].live
    decreases |code| - k
  {
    if k == |code| || code[k].live {
      m := k;
    } else {
      m := NextLive(code, depth, i, k + 1);
    }
  }

  lemma {:induction false} LeftBy(code: seq<Instr>, depth: seq<nat>, i: nat, m: nat)
    requires i < m <= |code| == |depth| && code[i].live && forall j :: i < j < m ==> !code[j].live
    ensures DepthOut(code, depth, m) == Held(code[i], depth[i])
    ensures AfterBranch(code, m) <==> AfterBranch(code, i + 1)
    decreases m
  {
    hide TableRow, Held, IsBranch;
    if m > i + 1 {
      LeftBy(code, depth, i, m - 1);
    }
  }

  // What the scan holds somewhere is a depth of the discipline somewhere.
  lemma HeldIsReached(code: seq<Instr>, depth: seq<nat>, returnsVoid: bool, i: nat)
    requires WellFlagged(code) && Disciplined(code, depth, returnsVoid) && GuessesRight(code, depth, returnsVoid)
    requires EndsWell(code, depth, returnsVoid) && i < |code| && code[i].live
    requires Held(code[i], depth[i]) > 0 && depth[i] <= Held(code[i], depth[i])
    ensures Reached(code, depth, returnsVoid, Held(code[i], depth[i]))
  {
    assert |depth| == |code|;
    hide TableRow, NamesOf, Held, After, WellFlagged, Disciplined, GuessesRight, CountsRight, CarriesOver, DepthOut, EndsWell, Reached;
    var n := Held(code[i], depth[i]);
    if n == After(code[i], depth[i], returnsVoid) {
      IsReached(code, depth, returnsVoid, i, n);
    } else {
      var m := NextLive(code, depth, i, i + 1);
      if m < |code| {
        GuessAt(code, depth, returnsVoid, i);
        GuessAt(code, depth, returnsVoid, m);
        CarriedTo(code, depth, returnsVoid, i, m);
        IsReached(code, depth, returnsVoid, m, n);
      } else {
        HeldAtEnd(code, depth, returnsVoid, i);
      }
    }
  }

  lemma HeldAtEnd(code: seq<Instr>, depth: seq<nat>, returnsVoid: bool, i: nat)
    requires WellFlagged(code) && Disciplined(code, depth, returnsVoid) && EndsWell(code, depth, returnsVoid)
    requires i < |code| && code[i].live && forall j :: i < j < |code| ==> !code[j].live
    requires Held(code[i], depth[i]) > 0 && depth[i] <= Held(code[i], depth[i])
    ensures Reached(code, depth, returnsVoid, Held(code[i], depth[i]))
  {
    assert |depth| == |code|;
    hide TableRow, NamesOf, Held, After, WellFlagged, Disciplined, DepthOut, EndsWell, Reached, AfterBranch;
    LeftBy(code, depth, i, |code|);
    LeftAtEnd(code, depth, returnsVoid);
    OneLeft(code, depth, returnsVoid, i);
    IsReached(code, depth, returnsVoid, i, Held(code[i], depth[i]));
  }

  lemma IsReached(code: seq<Instr>, depth: seq<nat>, returnsVoid: bool, i: nat, n: int)
    requires i < |code| == |depth| && code[i].live && (depth[i] == n || After(code[i], depth[i], returnsVoid) == n)
    ensures Reached(code, depth, returnsVoid, n)
  {
    hide TableRow, After;
  }

  lemma LeftAtEnd(code: seq<Instr>, depth: seq<nat>, returnsVoid: bool)
    requires |depth| == |code| && EndsWell(code, depth, returnsVoid) && DepthOut(code, depth, |code|) > 0
    ensures DepthOut(code, depth, |code|) == 1
  {
    hide TableRow, DepthOut;
  }

  lemma GuessAt(code: seq<Instr>, depth: seq<nat>, returnsVoid: bool, l: nat)
    requires |depth| == |code| && GuessesRight(code, depth, returnsVoid) && l < |code|
    ensures CountsRight(code, depth, returnsVoid, l) && CarriesOver(code, depth, l)
  {
    hide TableRow, NamesOf, Held, After, CountsRight, CarriesOver, EmptyIfUnknown;
    assert GuessedRight(code, depth, returnsVoid, l);
  }

  // What is counted wrong is carried to the next live instruction.
  lemma CarriedTo(code: seq<Instr>, depth: seq<nat>, returnsVoid: bool, i: nat, m: nat)
    requires i < m < |code| == |depth| && code[i].live && code[m].live && forall j :: i < j < m ==> !code[j].live
    requires CountsRight(code, depth, returnsVoid, i) && CarriesOver(code, depth, m)
    requires Held(code[i], depth[i]) != After(code[i], depth[i], returnsVoid)
    ensures depth[m] == Held(code[i], depth[i])
  {
    hide TableRow, NamesOf, Held, After, FallsThrough, AfterBranch, DepthOut;
    LeftBy(code, depth, i, m);
    NotAfterBranch(code, i, Held(code[i], depth[i]), depth[i], returnsVoid);
  }

  // What is counted wrong is no branch, label, comment or switch.
  lemma NotAfterBranch(code: seq<Instr>, i: nat, n: int, depth: nat, returnsVoid: bool)
    requires i < |code| && code[i].live && NamesOf(code[i]) == {} && n == Held(code[i], depth) != After(code[i], depth, returnsVoid)
    ensures !AfterBranch(code, i + 1)
  {
    NamesOfKind(code[i]);
    hide TableRow, NamesOf, Held, After, IsBranch;
    if code[i].op in {LABEL, COMMENT, SWITCH} {
      PlainUsage(code[i], depth, returnsVoid);
    }
  }

  lemma OneLeft(code: seq<Instr>, depth: seq<nat>, returnsVoid: bool, i: nat)
    requires WellFlagged(code) && Disciplined(code, depth, returnsVoid) && i < |code| && code[i].live
    requires Held(code[i], depth[i]) == 1 && depth[i] <= 1
    ensures depth[i] == 1 || After(code[i], depth[i], returnsVoid) == 1
  {
    assert Signed(code[i]) && Pops(code[i], returnsVoid) <= depth[i];
    StackUsageIsEcma(code[i], returnsVoid);
    ThrowPops(code[i], returnsVoid);
    hide TableRow, StackUsage, NamesOf, Pops, Pushes, Targets, FallsThrough, WellFlagged, Disciplined;
  }

  lemma ThrowPops(i: Instr, returnsVoid: bool)
    ensures i.op == THROW ==> Pops(i, returnsVoid) == 1 && Pushes(i) == 0
    ensures i.op == CPOBJ ==> Pops(i, returnsVoid) == 2 && Pushes(i) == 0
    ensures i.op == LDVIRTFTN ==> Pops(i, returnsVoid) == 1 && Pushes(i) == 1
    ensures i.op == NEWOBJ ==> Pushes(i) == 1
    ensures i.op == RET ==> Pushes(i) == 0 && (!returnsVoid ==> Pops(i, returnsVoid) == 1)
  {
  }

  // No instruction leaves more than the scan takes it to leave or it finds.
  lemma AfterIsCovered(i: Instr, depth: nat, returnsVoid: bool)
    requires Signed(i)
    ensures After(i, depth, returnsVoid) <= Held(i, depth) || After(i, depth, returnsVoid) <= depth
  {
    StackUsageIsEcma(i, returnsVoid);
    hide TableRow, StackUsage, Pops, Pushes;
  }

  // The scan knows the depth of the discipline before every live instruction
  // exactly when it counts as ECMA-335 does wherever control goes on, the stack
  // is empty at labels it knows nothing of, and it carries the right depth to
  // where control does not fall in. Then the body is accepted exactly when no
  // more is left at the end than the method returns, and maxStack is the
  // greatest depth reached.
  lemma ScanFindsDiscipline(code: seq<Instr>, depth: seq<nat>, returnsVoid: bool)
    requires WellFlagged(code) && Disciplined(code, depth, returnsVoid)
    ensures HoldsDepths(code, depth) <==> GuessesRight(code, depth, returnsVoid)
    ensures GuessesRight(code, depth, returnsVoid) ==>
              (Scanned(code, returnsVoid).Accepted? <==> EndsWell(code, depth, returnsVoid))
    ensures GuessesRight(code, depth, returnsVoid) && EndsWell(code, depth, returnsVoid) ==>
              var max := Scanned(code, returnsVoid).maxStack;
              && (forall i :: 0 <= i < |code| && code[i].live ==> depth[i] <= max && After(code[i], depth[i], returnsVoid) <= max)
              && (max == 0 || Reached(code, depth, returnsVoid, max))
  {
    assert |depth| == |code|;
    hide TableRow, NamesOf, StackUsage, WellFlagged, Disciplined, GuessedRight, After, ScanTo, EndsWell, HoldsAt, Reached;
    if HoldsDepths(code, depth) {
      forall l: nat | l < |code| ensures GuessedRight(code, depth, returnsVoid, l) {
        HeldIsRight(code, depth, returnsVoid, l);
      }
    }
    if GuessesRight(code, depth, returnsVoid) {
      forall i: nat | i < |code| && code[i].live ensures HoldsAt(code, depth, i) {
        RightIsHeld(code, depth, returnsVoid, i);
      }
      ScanTracks(code, depth, returnsVoid, |code|);
      VerdictIs(code, depth, returnsVoid);
      if EndsWell(code, depth, returnsVoid) {
        GreatestDepth(code, depth, returnsVoid);
      }
    }
  }

  lemma VerdictIs(code: seq<Instr>, depth: seq<nat>, returnsVoid: bool)
    requires |depth| == |code| && Tracks(code, depth, |code|, ScanTo(code, |code|))
    ensures Scanned(code, returnsVoid).Accepted? <==> EndsWell(code, depth, returnsVoid)
    ensures Scanned(code, returnsVoid).Accepted? ==> Scanned(code, returnsVoid).maxStack == MaxOut(code, depth, |code|)
  {
    hide TableRow, ScanTo, NamesTrack, Bounded, ReferredBefore, MetBefore, DepthOut, MaxOut;
  }

  lemma GreatestDepth(code: seq<Instr>, depth: seq<nat>, returnsVoid: bool)
    requires WellFlagged(code) && Disciplined(code, depth, returnsVoid) && GuessesRight(code, depth, returnsVoid)
    requires EndsWell(code, depth, returnsVoid)
    ensures var max := MaxOut(code, depth, |code|);
            && (forall i :: 0 <= i < |code| && code[i].live ==> depth[i] <= max && After(code[i], depth[i], returnsVoid) <= max)
            && (max == 0 || Reached(code, depth, returnsVoid, max))
  {
    assert |depth| == |code|;
    assert forall i :: 0 <= i < |code| && code[i].live ==> Signed(code[i]);
    hide TableRow, NamesOf, Held, WellFlagged, Disciplined, GuessesRight, After, EndsWell, HoldsAt, Reached, MaxOut, Signed;
    MaxOutIsMax(code, depth, |code|);
    forall i: nat | i < |code| && code[i].live
      ensures depth[i] <= MaxOut(code, depth, |code|) && After(code[i], depth[i], returnsVoid) <= MaxOut(code, depth, |code|)
    {
      RightIsHeld(code, depth, returnsVoid, i);
      AfterIsCovered(code[i], depth[i], returnsVoid);
    }
    if MaxOut(code, depth, |code|) != 0 {
      var i: nat :| i < |code| && code[i].live && Held(code[i], depth[i]) == MaxOut(code, depth, |code|);
      HeldIsReached(code, depth, returnsVoid, i);
    }
  }

  // ---- The condition on unknown labels is needed ----

  function Plain(op: Opcode, operand: Operand): Instr {
    Instr(op, operand, [], SehTry, false, 0, 0, true)
  }

  // ldc, X:, ldc, brtrue X, L:, pop, ret
  function FallsIntoLabel(): seq<Instr> {
    [Plain(LDC_I4, IntOperand(1)), Plain(LABEL, LabelOperand("X")), Plain(LDC_I4, IntOperand(1)),
     Plain(BRTRUE, LabelOperand("X")), Plain(LABEL, LabelOperand("L")), Plain(POP, NoOperand),
     Plain(RET, NoOperand)]
  }

  const FALLING_DEPTHS: seq<nat> := [0, 1, 1, 2, 1, 1, 0]

  // ---- What a rejection says ----

  // The depth an instruction leaves is below zero, or differs from the one
  // recorded for a label it refers to or is.
  ghost predicate Explains(i: Instr, s: Scan, e: StackError, returnsVoid: bool)
    requires s.Scanning?
  {
    var n := if StackUsage(i) == EMPTIES then 0 else s.n - Pops(i, returnsVoid) + Pushes(i) + Extra(i, returnsVoid);
    match e
    case StackUnderflow => n < 0
    case MismatchedStack(name) =>
      && n >= 0
      && (name in NamesOf(i) || (i.op == LABEL && Name(i) == name && !s.lastBranch))
      && name in s.labels && s.labels[name] != n
    case StackNotEmpty => false
  }

  // A rejected list has a live instruction that explains the error after a
  // scan without one, or the scan ends at a depth the method cannot return at.
  lemma {:induction false} RejectionIsExplained(code: seq<Instr>, returnsVoid: bool)
    requires Scanned(code, returnsVoid).Rejected? && forall i :: 0 <= i < |code| ==> Signed(code[i])
    ensures var e := Scanned(code, returnsVoid).error;
            if e == StackNotEmpty then
              ScanTo(code, |code|).Scanning? && (ScanTo(code, |code|).n != 1 || returnsVoid) && ScanTo(code, |code|).n != 0
            else exists k: nat :: k < |code| && code[k].live && ScanTo(code, k).Scanning? && Explains(code[k], ScanTo(code, k), e, returnsVoid)
  {
    hide TableRow, StackUsage, Pops, Pushes, Met, Explains;
    if ScanTo(code, |code|).Failed? {
      var k := FirstFailure(code, |code|);
      FailureIsExplained(code[k], ScanTo(code, k), returnsVoid);
    }
  }

  lemma {:induction false} FirstFailure(code: seq<Instr>, m: nat) returns (k: nat)
    requires m <= |code| && ScanTo(code, m).Failed?
    ensures k < m && ScanTo(code, k).Scanning? && Met(ScanTo(code, k), code[k]) == ScanTo(code, m)
  {
    hide Met;
    if ScanTo(code, m - 1).Failed? {
      k := FirstFailure(code, m - 1);
    } else {
      k := m - 1;
    }
  }

  lemma FailureIsExplained(i: Instr, s: Scan, returnsVoid: bool)
    requires s.Scanning? && Met(s, i).Failed? && Signed(i)
    ensures i.live && Explains(i, s, Met(s, i).error, returnsVoid) && Met(s, i).error != StackNotEmpty
  {
    StackUsageIsEcma(i, returnsVoid);
    BranchKind(i.op);
    hide TableRow, StackUsage, Pops, Pushes, Extra;
    if i.op == SWITCH && NoteAll(s.labels, i.switches, Held(i, s.n)).Failed? {
      NoteAllFails(s.labels, i.switches, Held(i, s.n));
    }
  }

  lemma {:induction false} NoteAllFails(labels: Depths, names: seq<string>, n: int)
    requires NoteAll(labels, names, n).Failed?
    ensures NoteAll(labels, names, n).error.MismatchedStack?
    ensures var name := NoteAll(labels, names, n).error.name; name in names && name in labels && labels[name] != n
    decreases |names|
  {
    if Note(labels, names[0], n).Some? {
      NoteAllFails(Note(labels, names[0], n).value, names[1..], n);
    }
  }

  // One value is on the stack at L, which is only fallen into; the scan takes
  // the stack to be empty there and then finds nothing to pop.
  lemma DisciplinedButRejected()
    ensures WellFlagged(FallsIntoLabel()) && Disciplined(FallsIntoLabel(), FALLING_DEPTHS, true)
    ensures Scanned(FallsIntoLabel(), true) == Rejected(StackUnderflow)
    ensures !GuessesRight(FallsIntoLabel(), FALLING_DEPTHS, true)
  {
    hide TableRow, ScanTo, Disciplined, WellFlagged, GuessesRight, FallsIntoLabel;
    FlaggedHere();
    DisciplinedHere();
    RejectedHere();
    assert |FallsIntoLabel()| == 7 by { LengthHere(); }
    ScanFindsDiscipline(FallsIntoLabel(), FALLING_DEPTHS, true);
    LiveHere();
    assert !HoldsAt(FallsIntoLabel(), FALLING_DEPTHS, 5);
  }

  lemma LengthHere()
    ensures |FallsIntoLabel()| == 7
  {
    hide TableRow;
  }

  lemma RejectedHere()
    ensures ScanTo(FallsIntoLabel(), 7) == ScanTo(FallsIntoLabel(), 6) == Failed(StackUnderflow)
  {
    var code := FallsIntoLabel();
    UsagesHere();
    hide TableRow;
    assert "L"[0] != "X"[0];
    assert ScanTo(code, 1) == Scanning(1, 1, false, map[]);
    assert ScanTo(code, 2) == Scanning(1, 1, false, map["X" := 1]);
    assert ScanTo(code, 3) == Scanning(2, 2, false, map["X" := 1]);
    assert ScanTo(code, 4) == Scanning(1, 2, true, map["X" := 1]);
    assert ScanTo(code, 5) == Scanning(0, 2, true, map["X" := 1]);
    assert ScanTo(code, 6) == Failed(StackUnderflow);
  }

  lemma AfterHere(i: nat)
    requires i < 7
    ensures var code := FallsIntoLabel();
            After(code[i], FALLING_DEPTHS[i], true) == if i == 6 then 0 else FALLING_DEPTHS[i + 1]
  {
    UsagesHere();
    hide TableRow;
  }

  lemma TargetsHere(i: nat, l: nat)
    requires i < 7 && Targets(FallsIntoLabel(), i, l)
    ensures i == 3 && l == 1
  {
    UsagesHere();
    hide TableRow;
    assert "L"[0] != "X"[0];
    NamesOfKind(FallsIntoLabel()[i]);
  }

  lemma PopsHere(i: nat)
    requires i < 7
    ensures Pops(FallsIntoLabel()[i], true) <= FALLING_DEPTHS[i]
    ensures FallsIntoLabel()[i].op == RET ==> i == 6 && Pops(FallsIntoLabel()[i], true) == 0
    ensures Signed(FallsIntoLabel()[i])
  {
    UsagesHere();
    hide TableRow, EcmaEffect;
  }

  lemma DisciplinedHere()
    ensures Disciplined(FallsIntoLabel(), FALLING_DEPTHS, true)
  {
    hide TableRow, FallsIntoLabel, After, Targets, Pops, FallsThrough;
    var code, depth := FallsIntoLabel(), FALLING_DEPTHS;
    LengthHere();
    LiveHere();
    forall i: nat | i < 7
      ensures After(code[i], depth[i], true) == if i == 6 then 0 else depth[i + 1]
      ensures Pops(code[i], true) <= depth[i] && (code[i].op == RET ==> depth[i] == Pops(code[i], true))
    {
      AfterHere(i);
      PopsHere(i);
    }
    forall i: nat, l: nat | i < 7 && Targets(code, i, l) ensures i == 3 && l == 1 {
      TargetsHere(i, l);
    }
    assert forall i: nat :: i < 6 ==> depth[i + 1] == After(code[i], depth[i], true);
  }

  lemma LiveHere()
    ensures var code := FallsIntoLabel();
            forall i :: 0 <= i < 7 ==> code[i].live && code[i].op != SEH && code[i].op != BR && !OpensSeh(code[i])
    ensures LiveSet(FallsIntoLabel()) == {0, 1, 2, 3, 4, 5, 6}
  {
    hide TableRow;
  }

  lemma FlaggedHere()
    ensures WellFlagged(FallsIntoLabel())
  {
    hide TableRow, FallsIntoLabel, Targets;
    var code := FallsIntoLabel();
    LengthHere();
    LiveHere();
    LabelsHere();
    forall i: nat | i < 7 ensures Signed(code[i]) {
      PopsHere(i);
    }
    forall i: nat, l: nat | i < 7 && Targets(code, i, l) ensures i == 3 && l == 1 {
      TargetsHere(i, l);
    }
  }

  lemma LabelsHere()
    ensures var code := FallsIntoLabel();
            && (forall i, j :: 0 <= i < j < 7 && code[i].op == LABEL && code[j].op == LABEL ==> Name(code[i]) != Name(code[j]))
            && (forall i, name :: 0 <= i < 7 && name in NamesOf(code[i]) ==> HasLabel(code, name))
  {
    UsagesHere();
    hide TableRow;
    var code := FallsIntoLabel();
    assert "L"[0] != "X"[0];
    assert IsLabelled(code, 1, "X");
    forall i, name | 0 <= i < 7 && name in NamesOf(code[i]) ensures HasLabel(code, name) {
      NamesOfKind(code[i]);
    }
  }

  lemma UsagesHere()
    ensures TableRow(LDC_I4).stack == 1 && TableRow(BRTRUE).stack == -1 && TableRow(LABEL).stack == 0
    ensures TableRow(POP).stack == -1 && TableRow(RET).stack == 0
    ensures EcmaEffect(LDC_I4) == Moves(0, 1) && EcmaEffect(BRTRUE) == EcmaEffect(POP) == Moves(1, 0)
    ensures EcmaEffect(RET) == BySignature
    ensures IsBranch(BRTRUE) && !IsBranch(LDC_I4) && !IsBranch(LABEL) && !IsBranch(POP) && !IsBranch(RET)
  {
  }

  // ---- throw counts as a push ----

  const LDNULL: Opcode := 161

  function Throws(): seq<Instr> { [Plain(LDNULL, NoOperand), Plain(THROW, NoOperand)] }

  // A body that throws what it loads is disciplined and rejected: the scan
  // finds two values at its end.
  lemma ThrowIsRejected(returnsVoid: bool)
    ensures WellFlagged(Throws()) && Disciplined(Throws(), [0, 1], returnsVoid)
    ensures GuessesRight(Throws(), [0, 1], returnsVoid) && Scanned(Throws(), returnsVoid) == Rejected(StackNotEmpty)
  {
    hide TableRow, EcmaEffect, WellFlagged, Disciplined, ScanTo;
    ThrowsHere();
    ThrowIsDisciplined(returnsVoid);
    ThrowIsScanned();
    hide GuessesRight, Throws;
    var depth: seq<nat> := [0, 1];
    ScanFindsDiscipline(Throws(), depth, returnsVoid);
    ThrowIsHeld();
  }

  lemma ThrowsHere()
    ensures |Throws()| == 2 && Throws()[0].op == LDNULL && Throws()[1].op == THROW
    ensures forall i :: 0 <= i < 2 ==> Throws()[i].live && NamesOf(Throws()[i]) == {} && !OpensSeh(Throws()[i])
    ensures LiveSet(Throws()) == {0, 1}
  {
    ThrowUsages();
    NamesOfKind(Throws()[0]);
    NamesOfKind(Throws()[1]);
    hide TableRow, NamesOf;
  }

  lemma ThrowIsDisciplined(returnsVoid: bool)
    ensures WellFlagged(Throws()) && Disciplined(Throws(), [0, 1], returnsVoid)
  {
    ThrowsHere();
    ThrowUsages();
    ThrowEffects(returnsVoid);
    var code := Throws();
    assert forall i: nat, l: nat :: i < 2 ==> !Targets(code, i, l) by { hide TableRow, NamesOf, Throws; }
    ThrowIsFlagged();
    hide TableRow, EcmaEffect, Throws, NamesOf, Pops, After, Targets, FallsThrough, WellFlagged;
  }

  lemma ThrowIsFlagged()
    ensures WellFlagged(Throws())
  {
    ThrowsHere();
    ThrowUsages();
    hide TableRow, EcmaEffect, Throws, NamesOf;
  }

  lemma ThrowEffects(returnsVoid: bool)
    ensures var code := Throws();
            && Pops(code[0], returnsVoid) == 0 && Pops(code[1], returnsVoid) == 1 && After(code[0], 0, returnsVoid) == 1
            && FallsThrough(code[0]) && !FallsThrough(code[1])
  {
    ThrowUsages();
    hide TableRow, EcmaEffect;
  }

  lemma ThrowIsScanned()
    ensures ScanTo(Throws(), 1) == Scanning(1, 1, false, map[]) && ScanTo(Throws(), 2) == Scanning(2, 2, false, map[])
  {
    ThrowsHere();
    ThrowUsages();
    hide TableRow, Throws, NamesOf;
    assert ScanTo(Throws(), 0) == Scanning(0, 0, false, map[]);
    assert ScanTo(Throws(), 1) == Met(ScanTo(Throws(), 0), Throws()[0]);
    assert ScanTo(Throws(), 2) == Met(ScanTo(Throws(), 1), Throws()[1]);
  }

  lemma ThrowIsHeld()
    ensures HoldsDepths(Throws(), [0, 1])
  {
    ThrowsHere();
    ThrowIsScanned();
    hide TableRow, ScanTo, Throws;
    assert ScanTo(Throws(), 0) == Scanning(0, 0, false, map[]) by { NothingScanned(Throws()); }
  }

  lemma NothingScanned(code: seq<Instr>)
    ensures ScanTo(code, 0) == Scanning(0, 0, false, map[])
  {
  }

  lemma ThrowUsages()
    ensures TableRow(LDNULL).stack == TableRow(THROW).stack == 1 && !IsBranch(LDNULL) && !IsBranch(THROW)
    ensures EcmaEffect(LDNULL) == Moves(0, 1) && EcmaEffect(THROW) == Moves(1, 0)
  {
  }
}
