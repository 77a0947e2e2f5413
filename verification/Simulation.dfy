// Running a method body: on the list, jumping to labels, and on the bytes,
// jumping by displacement. Every run of one is a run of the other.
module Simulation {
  import opened Bytes
  import opened Opcodes
  import opened Instructions
  import opened Relaxation
  import opened Passes
  import opened Encoding
  import opened Decoding
  import opened Meaning

  // What executing an instruction does to the data state, and which way
  // control goes: on, to the branch target, to the k-th case, or out.
  datatype Outcome<S> = Next(s: S) | Taken(s: S) | Case(k: nat, s: S) | Halt(s: S)

  // The data semantics sees the action but not where its targets lie.
  function Blank<T>(action: Action<T>): Action<()> {
    Action(action.op,
           match action.arg
           case NoArg => NoArg
           case IntArg(n) => IntArg(n)
           case LocalArg(v) => LocalArg(v)
           case ParamArg(index) => ParamArg(index)
           case TokenArg(token) => TokenArg(token)
           case Jump(_) => Jump(())
           case Table(ts) => Table(seq(|ts|, _ => ())))
  }

  datatype Config<S> = Running(at: int, s: S) | Stopped(s: S)

  // Where an outcome sends control when it is not the next instruction.
  function JumpTarget<T, S>(action: Action<T>, outcome: Outcome<S>): Option<T> {
    if outcome.Taken? && action.arg.Jump? then Some(action.arg.target)
    else if outcome.Case? && action.arg.Table? && outcome.k < |action.arg.targets| then
      Some(action.arg.targets[outcome.k])
    else None
  }

  // ---- The list ----

  function FirstReal(code: seq<Instr>, k: nat): (j: nat)
    requires k <= |code|
    ensures k <= j <= |code| && (j < |code| ==> !IsPseudo(code[j].op))
    decreases |code| - k
  {
    if k < |code| && IsPseudo(code[k].op) then FirstReal(code, k + 1) else k
  }

  // The frame matters only to instructions that name a slot outright.
  function SourceStep<S>(code: seq<Instr>, frame: Frame, sem: (Action<()>, S) -> Outcome<S>, c: Config<S>): Config<S> {
    if c.Stopped? || !(0 <= c.at <= |code|) then Stopped(c.s)
    else
      var j := FirstReal(code, c.at);
      if j == |code| then Stopped(c.s)
      else match SourceAction(code[j], frame)
        case None => Stopped(c.s)
        case Some(action) =>
          var outcome := sem(Blank(action), c.s);
          if outcome.Halt? then Stopped(outcome.s)
          else match JumpTarget(action, outcome)
            case None => Running(j + 1, outcome.s)
            case Some(name) =>
              if name in LabelsOf(code) then Running(LabelsOf(code)[name], outcome.s)
              else Stopped(outcome.s)
  }

  function SourceRun<S>(code: seq<Instr>, frame: Frame, sem: (Action<()>, S) -> Outcome<S>, s: S, n: nat): Config<S> {
    if n == 0 then Running(0, s) else SourceStep(code, frame, sem, SourceRun(code, frame, sem, s, n - 1))
  }

  // ---- The bytes ----

  function ByteStep<S>(code: seq<byte>, frame: Frame, sem: (Action<()>, S) -> Outcome<S>, c: Config<S>): Config<S> {
    if c.Stopped? || c.at < 0 then Stopped(c.s)
    else match Fetch(code, frame, c.at)
      case None => Stopped(c.s)
      case Some((action, next)) =>
        var outcome := sem(Blank(action), c.s);
        if outcome.Halt? then Stopped(outcome.s)
        else match JumpTarget(action, outcome)
          case None => Running(next, outcome.s)
          case Some(pc) => Running(pc, outcome.s)
  }

  function ByteRun<S>(code: seq<byte>, frame: Frame, sem: (Action<()>, S) -> Outcome<S>, s: S, n: nat): Config<S> {
    if n == 0 then Running(0, s) else ByteStep(code, frame, sem, ByteRun(code, frame, sem, s, n - 1))
  }

  // ---- The simulation ----

  // Same data; the program counter is the offset of the current instruction.
  ghost predicate Corresponds<S>(final: seq<Instr>, source: Config<S>, bytes: Config<S>) {
    if source.Stopped? then bytes == source
    else bytes.Running? && bytes.s == source.s && 0 <= source.at <= |final| && bytes.at == SizeTo(final, source.at)
  }

  ghost predicate WellFormed(code: seq<Instr>) {
    && AllFit(code)
    && LabelsDistinct(code)
    && (forall i :: 0 <= i < |code| ==> !Misencoded(code[i].op))
    && (forall i, name :: 0 <= i < |code| && code[i].op == SWITCH && name in code[i].switches ==> name in LabelsOf(code))
  }

  // A body whose author leaves slots to the library.
  ghost predicate WellWritten(code: seq<Instr>) {
    WellFormed(code) && forall i :: 0 <= i < |code| ==> !NamesSlot(code[i].op)
  }

  // The slots named outright are those of locals.
  ghost predicate SlotsExist(code: seq<Instr>, frame: Frame) {
    forall i :: 0 <= i < |code| ==> SourceAction(code[i], frame).Some?
  }

  lemma FrameUnused(i: Instr, frame: Frame)
    requires !NamesSlot(i.op)
    ensures SourceAction(i, frame) == SourceAction(i, []) && SourceAction(i, []).Some?
  {
    hide TableRow, SourceArg;
    CanonicalNamesSlot(i.op);
  }

  lemma CanonicalNamesSlot(op: Opcode)
    ensures NamesSlot(Canonical(op)) == NamesSlot(op)
  {
  }

  lemma WellWrittenSlotsExist(code: seq<Instr>, frame: Frame)
    requires WellWritten(code)
    ensures SlotsExist(code, frame)
  {
    hide TableRow, SourceAction, OperandFits;
    forall i | 0 <= i < |code| ensures SourceAction(code[i], frame).Some? {
      FrameUnused(code[i], frame);
    }
  }

  // Accepted lists satisfy what reading back needs.
  lemma AcceptedIsAssembled(code: seq<Instr>, slots: Slots, frame: Frame)
    requires WellFormed(code) && LocalsHaveSlots(code, slots) && FrameMatches(slots, frame)
    requires var final := Optimized(code, slots);
             && LocalsHaveSlots(final, slots) && LabelsIn(final, LabelsOf(code))
             && Check(final, LabelsOf(code), slots).Ok?
             && SizeTo(final, |final|) < 0x8000_0000
    ensures Assembled(Optimized(code, slots), LabelsOf(code), slots)
  {
    hide TableRow, OperandFits, SourceAction, CheckAt, Optimized, LabelsOf, SizeTo;
    var labels := LabelsOf(code);
    var final := Optimized(code, slots);
    OptimizedRewrites(code, slots, frame);
    OptimizedIsCurrent(code, slots);
    CurrentIsLaidOut(final);
    forall i | 0 <= i < |final|
      ensures EncodableInstr(final[i], labels) && !Misencoded(final[i].op)
    {
      CheckedBranch(final, labels, slots, i);
    }
  }

  lemma OptimizedIsCurrent(code: seq<Instr>, slots: Slots)
    requires LocalsHaveSlots(code, slots)
    ensures OffsetsCurrent(Optimized(code, slots))
  {
    hide TableRow;
    LabelsOfIsIn(code);
    RelaxIsCurrent(PeepholeAll(code, slots), LabelsOf(code));
  }

  lemma CheckedBranch(code: seq<Instr>, labels: Labels, slots: Slots, i: nat)
    requires i < |code| && LabelsIn(code, labels) && LocalsHaveSlots(code, slots)
    requires CheckAt(code, labels, slots, i).Ok?
    ensures IsBranch(code[i].op) ==> Name(code[i]) in labels
  {
    hide TableRow;
  }

  lemma {:induction false} PseudoTakeNoRoom(code: seq<Instr>, final: seq<Instr>, frame: Frame, k: nat)
    requires Rewrites(code, final, frame) && k <= |code|
    ensures SizeTo(final, FirstReal(code, k)) == SizeTo(final, k)
    decreases |code| - k
  {
    hide TableRow, OperandFits, SourceAction;
    if k < |code| && IsPseudo(code[k].op) {
      PseudoRow(final[k].op);
      PseudoTakeNoRoom(code, final, frame, k + 1);
    }
  }

  lemma ResolveIsBlank(action: Action<string>, list: seq<Instr>, labels: Labels)
    requires LabelsIn(list, labels)
    ensures Blank(Resolve(action, list, labels)) == Blank(action)
  {
    hide TableRow, Position;
    var resolved := Resolve(action, list, labels);
    if action.arg.Table? {
      assert Blank(resolved).arg.targets == Blank(action).arg.targets;
    }
  }

  lemma ResolveJumpTarget<S>(action: Action<string>, outcome: Outcome<S>, list: seq<Instr>, labels: Labels)
    requires LabelsIn(list, labels)
    ensures JumpTarget(Resolve(action, list, labels), outcome)
         == match JumpTarget(action, outcome)
            case None => None
            case Some(name) => Some(Position(list, labels, name))
  {
    hide TableRow, Position;
  }

  // Every name an action can jump to is a label of the body.
  lemma TargetsAreLabels<S>(final: seq<Instr>, labels: Labels, slots: Slots, frame: Frame, j: nat, outcome: Outcome<S>)
    requires j < |final| && Encodable(final, labels, slots)
    requires SourceAction(final[j], frame).Some?
    ensures var target := JumpTarget(SourceAction(final[j], frame).value, outcome);
            target.Some? ==> target.value in labels
  {
    hide TableRow, OperandFits, Canonical, General;
    var i := final[j];
    GeneralKeepsTargets(Canonical(i.op), SourceArg(i), frame);
    SwitchRow(i.op);
  }

  lemma GeneralKeepsTargets(op: Opcode, arg: Arg<string>, frame: Frame)
    requires General(op, arg, frame).Some?
    ensures var general := General(op, arg, frame).value.arg;
            (general.Jump? || general.Table?) ==> general == arg
  {
    hide TableRow;
  }

  // One step of the bytes does what one step of the list does.
  lemma StepCorresponds<S>(code: seq<Instr>, final: seq<Instr>, slots: Slots, frame: Frame,
                           sem: (Action<()>, S) -> Outcome<S>, source: Config<S>, bytes: Config<S>)
    requires WellFormed(code) && SlotsExist(code, frame) && Rewrites(code, final, frame)
    requires Assembled(final, LabelsOf(code), slots) && FrameMatches(slots, frame)
    requires Corresponds(final, source, bytes)
    ensures Corresponds(final, SourceStep(code, frame, sem, source),
                        ByteStep(RenderedAll(final, LabelsOf(code), slots), frame, sem, bytes))
  {
    hide TableRow, OperandFits, SourceAction, CheckAt, Fetch, RenderedAll, LabelsOf, SizeTo, Blank, Resolve, JumpTarget;
    if source.Running? {
      var labels := LabelsOf(code);
      var j := FirstReal(code, source.at);
      PseudoTakeNoRoom(code, final, frame, source.at);
      if j == |code| {
        EndOfCode(final, labels, slots, frame);
      } else {
        var action := SourceAction(code[j], frame).value;
        FetchReads(final, labels, slots, frame, j);
        ResolveIsBlank(action, final, labels);
        var outcome := sem(Blank(action), source.s);
        ResolveJumpTarget(action, outcome, final, labels);
        TargetsAreLabels(final, labels, slots, frame, j, outcome);
      }
    }
  }

  lemma EndOfCode(list: seq<Instr>, labels: Labels, slots: Slots, frame: Frame)
    requires Assembled(list, labels, slots)
    ensures Fetch(RenderedAll(list, labels, slots), frame, SizeTo(list, |list|)).None?
  {
    hide TableRow, OperandFits, CheckAt;
    RenderedToSize(list, labels, slots, |list|);
  }

  lemma StartOfCode(code: seq<Instr>)
    ensures SizeTo(code, 0) == 0
  {
  }

  lemma WellFormedFits(code: seq<Instr>)
    requires WellFormed(code)
    ensures AllFit(code)
  {
    hide TableRow, OperandFits;
  }

  // The bytes Compile emits for an optimized body run exactly as the list that
  // was optimized: whatever the instructions do to the data, after any number
  // of steps both have the same data and stand at the same instruction.
  lemma {:induction false} AssemblerIsCorrect<S>(code: seq<Instr>, slots: Slots, frame: Frame,
                                                 sem: (Action<()>, S) -> Outcome<S>, s: S, n: nat)
    requires WellFormed(code) && SlotsExist(code, frame)
    requires LocalsHaveSlots(code, slots) && FrameMatches(slots, frame)
    requires var final := Optimized(code, slots);
             && LocalsHaveSlots(final, slots) && LabelsIn(final, LabelsOf(code))
             && Check(final, LabelsOf(code), slots).Ok?
             && SizeTo(final, |final|) < 0x8000_0000
    ensures var final := Optimized(code, slots);
            Corresponds(final, SourceRun(code, frame, sem, s, n),
                        ByteRun(RenderedAll(final, LabelsOf(code), slots), frame, sem, s, n))
  {
    hide TableRow, OperandFits, SourceAction, Optimized, LabelsOf, RenderedAll, SourceStep, ByteStep, Check, SizeTo,
         Assembled, Rewrites, FrameMatches, SlotsExist;
    StartOfCode(Optimized(code, slots));
    if n > 0 {
      AssemblerIsCorrect(code, slots, frame, sem, s, n - 1);
      var final := Optimized(code, slots);
      AcceptedIsAssembled(code, slots, frame);
      WellFormedFits(code);
      OptimizedRewrites(code, slots, frame);
      hide WellFormed;
      StepCorresponds(code, final, slots, frame, sem, SourceRun(code, frame, sem, s, n - 1),
                      ByteRun(RenderedAll(final, LabelsOf(code), slots), frame, sem, s, n - 1));
    }
  }

  // ---- Lists that run alike ----

  lemma {:induction false} RewritesKeepFirstReal(a: seq<Instr>, b: seq<Instr>, frame: Frame, k: nat)
    requires Rewrites(a, b, frame) && k <= |a|
    ensures |a| == |b| && FirstReal(a, k) == FirstReal(b, k)
    decreases |a| - k
  {
    hide TableRow, OperandFits, SourceAction;
    if k < |a| { RewritesKeepFirstReal(a, b, frame, k + 1); }
  }

  // Another way of writing a list runs as the list does.
  lemma {:induction false} RewritesKeepRuns<S>(a: seq<Instr>, b: seq<Instr>, frame: Frame,
                                               sem: (Action<()>, S) -> Outcome<S>, s: S, n: nat)
    requires Rewrites(a, b, frame)
    ensures SourceRun(b, frame, sem, s, n) == SourceRun(a, frame, sem, s, n)
  {
    hide TableRow, OperandFits, SourceAction, Blank, JumpTarget, LabelsOf, SameRole;
    if n > 0 {
      RewritesKeepRuns(a, b, frame, sem, s, n - 1);
      RewritesKeepAllLabels(a, b, frame);
      var c := SourceRun(a, frame, sem, s, n - 1);
      if c.Running? && 0 <= c.at <= |a| {
        RewritesKeepFirstReal(a, b, frame, c.at);
      }
    }
  }

  lemma RewritesKeepAllLabels(a: seq<Instr>, b: seq<Instr>, frame: Frame)
    requires Rewrites(a, b, frame)
    ensures LabelsOf(a) == LabelsOf(b)
  {
    hide TableRow, OperandFits, SourceAction, LabelsTo;
    RewritesKeepLabels(a, b, frame, |a|);
  }

  lemma RewritesKeepWellFormed(a: seq<Instr>, b: seq<Instr>, frame: Frame)
    requires Rewrites(a, b, frame) && WellFormed(a) && SlotsExist(a, frame)
    ensures WellFormed(b) && SlotsExist(b, frame)
  {
    hide TableRow, OperandFits, SourceAction, LabelsOf, Misencoded;
    RewritesKeepAllLabels(a, b, frame);
    forall i | 0 <= i < |b| ensures !Misencoded(b[i].op) {
      assert SameRole(a[i], b[i]);
    }
  }

  function SlotNamed(op: Opcode): nat
    requires NamesSlot(op)
  {
    if LDLOC_0 <= op < LDLOC_0 + 4 then op - LDLOC_0 else op - STLOC_0
  }

  predicate SameLocal(a: Frame, b: Frame, slot: nat) {
    if slot < |a| then slot < |b| && a[slot] == b[slot] else slot >= |b|
  }

  // Every slot named outright holds the same local in both frames.
  ghost predicate SlotsKept(code: seq<Instr>, a: Frame, b: Frame) {
    forall i :: 0 <= i < |code| && NamesSlot(code[i].op) ==> SameLocal(a, b, SlotNamed(code[i].op))
  }

  lemma NamedAction(i: Instr, frame: Frame)
    requires NamesSlot(i.op)
    ensures SourceAction(i, frame)
         == SlotAction(if LDLOC_0 <= i.op < LDLOC_0 + 4 then LDLOC else STLOC, SlotNamed(i.op), frame)
  {
    hide TableRow, SourceArg;
    assert Canonical(i.op) == i.op;
  }

  // An instruction means the same in both frames unless it names a slot that
  // holds another local.
  lemma ActionKeptIff(i: Instr, a: Frame, b: Frame)
    ensures SourceAction(i, a) == SourceAction(i, b) <==> (NamesSlot(i.op) ==> SameLocal(a, b, SlotNamed(i.op)))
  {
    if NamesSlot(i.op) {
      NamedAction(i, a);
      NamedAction(i, b);
    } else {
      FrameUnused(i, a);
      FrameUnused(i, b);
    }
    hide TableRow, SourceAction;
  }

  lemma ActionsKeptIff(code: seq<Instr>, a: Frame, b: Frame)
    ensures (forall i :: 0 <= i < |code| ==> SourceAction(code[i], a) == SourceAction(code[i], b)) <==> SlotsKept(code, a, b)
  {
    hide TableRow, SourceAction, NamesSlot, SameLocal;
    forall i | 0 <= i < |code|
      ensures SourceAction(code[i], a) == SourceAction(code[i], b)
              <==> (NamesSlot(code[i].op) ==> SameLocal(a, b, SlotNamed(code[i].op)))
    {
      ActionKeptIff(code[i], a, b);
    }
  }

  lemma {:induction false} SlotsKeptRuns<S>(code: seq<Instr>, a: Frame, b: Frame,
                                            sem: (Action<()>, S) -> Outcome<S>, s: S, n: nat)
    requires SlotsKept(code, a, b)
    ensures SourceRun(code, a, sem, s, n) == SourceRun(code, b, sem, s, n)
  {
    hide TableRow, SourceAction, Blank, JumpTarget, LabelsOf;
    if n > 0 {
      SlotsKeptRuns(code, a, b, sem, s, n - 1);
      ActionsKeptIff(code, a, b);
    }
  }

  // A body that names no slot runs the same in any frame.
  lemma NoSlotsNamed<S>(code: seq<Instr>, a: Frame, b: Frame, sem: (Action<()>, S) -> Outcome<S>, s: S, n: nat)
    requires WellWritten(code)
    ensures SourceRun(code, a, sem, s, n) == SourceRun(code, b, sem, s, n)
  {
    hide TableRow, SourceRun, WellFormed;
    SlotsKeptRuns(code, a, b, sem, s, n);
  }
}
