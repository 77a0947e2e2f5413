// A method with its locals: the passes of Method.Optimize in their order.
module Methods {
  import opened Bytes
  import opened Opcodes
  import opened Instructions
  import opened Relaxation
  import opened Passes
  import opened Encoding
  import opened Decoding
  import opened Meaning
  import opened Simulation
  import opened SehTags
  import opened SehClauses
  import opened SehAcceptance
  import opened CodeContainers
  import Liveness
  import MaxStack
  import opened Locals

  datatype MethodStatus = Done | BadStack(stack: MaxStack.StackError) | BadBody(error: PELibError)

  ghost predicate Flagged(before: seq<Instr>, after: seq<Instr>) {
    exists live :: Liveness.IsLeastClosed(before, live) && Liveness.LiveIs(before, after, live)
  }

  // The uses in the list come on top of those counted before.
  ghost predicate CountedOnTop(locals: seq<LocalId>, before: Uses, code: seq<Instr>, after: Uses)
    requires HasUses(locals, before)
  {
    forall v :: v in locals ==> v in after && after[v] == before[v] + CountTo(code, |code|, v)
  }

  class Method {
    const body: CodeContainer
    const returnsVoid: bool
    var varList: seq<LocalId>
    var uses: Uses
    var index: Slots
    var maxStack: int

    // The order of varList is that of the emitted local signature.
    ghost predicate Valid()
      reads this
    {
      Distinct(varList) && Numbered(varList, index) && HasUses(varList, uses)
    }

    constructor (returnsVoid: bool)
      ensures Valid() && varList == [] && fresh(body) && body.instructions == [] && body.labels == map[]
      ensures this.returnsVoid == returnsVoid
    {
      this.returnsVoid := returnsVoid;
      body := new CodeContainer();
      varList, uses, index, maxStack := [], map[], map[], 100;
    }

    method AddLocal(local: LocalId)
      requires Valid() && local !in varList
      modifies this`varList, this`uses, this`index
      ensures Valid() && varList == old(varList) + [local] && uses[local] == 0
      ensures forall v :: v in old(varList) ==> index[v] == old(index)[v] && uses[v] == old(uses)[v]
    {
      index := index[local := |varList|];
      uses := uses[local := 0];
      varList := varList + [local];
    }

    // Counts on top of what earlier calls counted.
    method OptimizeLocals()
      requires Valid() && Declared(body.instructions, varList)
      modifies this`varList, this`uses, this`index
      ensures Valid() && multiset(varList) == multiset(old(varList))
      ensures CountedOnTop(old(varList), old(uses), body.instructions, uses)
      ensures ByUse(varList, uses)
    {
      hide TableRow, CountTo;
      uses := CountUses(body.instructions, varList, uses);
      var sorted := SortByUse(varList, uses);
      SameMembers(sorted, varList);
      PermutedIsDistinct(varList, sorted);
      varList := sorted;
      index := Number(varList);
    }

    method Optimize() returns (status: MethodStatus)
      requires Valid() && Declared(body.instructions, varList) && body.labels == map[]
      modifies this, body
      ensures Valid() && multiset(varList) == multiset(old(varList))
      ensures exists flagged :: Flagged(old(body.instructions), flagged)
                && match MaxStack.Scanned(flagged, returnsVoid)
                   case Rejected(e) =>
                     status == BadStack(e) && body.instructions == flagged && varList == old(varList)
                   case Accepted(max) =>
                     && maxStack == max
                     && ByUse(varList, uses) && LocalsHaveSlots(flagged, index)
                     && CountedOnTop(old(varList), old(uses), old(body.instructions), uses)
                     && LabelsIn(Optimized(flagged, index), LabelsOf(flagged))
                     && LocalsHaveSlots(Optimized(flagged, index), index)
                     && status == OptimizeStatus(flagged, index)
                     && (status.Done? ==> body.instructions == Optimized(flagged, index) && body.labels == map[])
                     && (status.Done? ==> IsOptimized(old(body.instructions), body.instructions, varList, index))
                     && (status.Done? ==> body.hasSEH == (old(body.hasSEH) || TagsOf(body.instructions) != []))
    {
      hide TableRow, CountTo, Optimized, LabelsOf, MaxStack.Scanned, Liveness.IsLeastClosed, SehStatus, Check, PeepholeAll,
           Distinct, Numbered, Liveness.LiveIs, TagsTo;
      ghost var before := body.instructions;
      var flagged := Liveness.CalculateLive(body.instructions);
      ghost var live :| Liveness.IsLeastClosed(before, live) && Liveness.LiveIs(before, flagged, live);
      assert Flagged(before, flagged);
      FlagsKeepCounts(before, flagged, live, |before|);
      body.instructions := flagged;
      var verdict := MaxStack.CalculateMaxStack(body.instructions, returnsVoid);
      if verdict.Rejected? {
        return BadStack(verdict.error);
      }
      maxStack := verdict.maxStack;
      OptimizeLocals();
      SameMembers(varList, old(varList));
      DeclaredHaveSlots(flagged, varList, index);
      var result := body.Optimize(index);
      PeepholeKeepsShape(flagged, index);
      OptimizedKeepsShape(flagged, index);
      status := if result.Err? then BadBody(result.error) else Done;
    }

    // The bytes and the clauses of a method that has been optimized.
    method Compile() returns (status: Status, code: array<byte>, clauses: seq<SEHData>)
      requires Valid() && body.labels == map[]
      requires Encodable(body.instructions, LabelsOf(body.instructions), index)
      requires OffsetsCurrent(body.instructions)
      requires forall i :: 0 <= i < |body.instructions| ==> body.instructions[i].op != UNALIGNED
      requires exists bs :: StandsFor(TagsOf(body.instructions), bs)
      modifies body
      ensures body.instructions == old(body.instructions)
      ensures status == if LabelsDistinct(body.instructions) then Ok else Err(DuplicateLabel)
      ensures LabelsIn(body.instructions, LabelsOf(body.instructions)) && LocalsHaveSlots(body.instructions, index)
      ensures status.Ok? ==> code[..] == RenderedAll(body.instructions, LabelsOf(body.instructions), index)
      ensures status.Ok? ==> forall bs :: StandsFor(TagsOf(body.instructions), bs) ==> clauses == ClausesFrom(bs, 0)
    {
      hide TableRow, OperandFits, LabelsOf, RenderedAll, ClausesFrom, TagsOf, FlatAll, Compilable, LaidOut, StandsFor;
      CurrentIsLaidOut(body.instructions);
      clauses := [];
      status, code := body.Compile(index);
      if status.Err? { return; }
      clauses := body.CompileClauses();
    }
  }

  // What CodeContainer.Optimize reports.
  ghost function OptimizeStatus(code: seq<Instr>, slots: Slots): MethodStatus
    requires LocalsHaveSlots(code, slots)
    requires LabelsIn(Optimized(code, slots), LabelsOf(code)) && LocalsHaveSlots(Optimized(code, slots), slots)
  {
    var status :=
      if !LabelsDistinct(code) then Err(DuplicateLabel)
      else if SehStatus(PeepholeAll(code, slots)).Err? then SehStatus(PeepholeAll(code, slots))
      else Check(Optimized(code, slots), LabelsOf(code), slots);
    if status.Err? then BadBody(status.error) else Done
  }

  lemma DeclaredHaveSlots(code: seq<Instr>, locals: seq<LocalId>, slots: Slots)
    requires Declared(code, locals) && Numbered(locals, slots)
    ensures LocalsHaveSlots(code, slots)
  {
    hide TableRow;
  }

  lemma PermutedIsDistinct(a: seq<LocalId>, b: seq<LocalId>)
    requires Distinct(a) && multiset(a) == multiset(b)
    ensures Distinct(b)
  {
    forall i, j | 0 <= i < j < |b| ensures b[i] != b[j] {
      if b[i] == b[j] {
        TwiceInMultiset(b, i, j);
        OnceInMultiset(a, b[i]);
      }
    }
  }

  lemma TwiceInMultiset(s: seq<LocalId>, i: nat, j: nat)
    requires i < j < |s| && s[i] == s[j]
    ensures multiset(s)[s[i]] >= 2
  {
    assert s == s[..j] + s[j..];
    assert s[j..] == [s[j]] + s[j + 1..];
    assert s[i] in s[..j];
    assert multiset(s) == multiset(s[..j]) + multiset{s[j]} + multiset(s[j + 1..]);
  }

  lemma {:induction false} OnceInMultiset(s: seq<LocalId>, v: LocalId)
    requires Distinct(s)
    ensures multiset(s)[v] <= 1
  {
    if s != [] {
      var n := |s| - 1;
      OnceInMultiset(s[..n], v);
      assert s == s[..n] + [s[n]];
      if s[n] == v {
        assert v !in multiset(s[..n]) by { assert v !in s[..n]; }
      }
    }
  }

  lemma {:induction false} FlagsKeepCounts(before: seq<Instr>, after: seq<Instr>, live: set<nat>, k: nat)
    requires Liveness.LiveIs(before, after, live) && k <= |before|
    ensures |after| == |before| && forall v :: CountTo(after, k, v) == CountTo(before, k, v)
    ensures forall locals :: Declared(before, locals) ==> Declared(after, locals)
  {
    hide TableRow;
    if k > 0 {
      FlagsKeepCounts(before, after, live, k - 1);
    }
  }

  // The slots Optimize assigns are those of the emitted local signature.
  lemma NumberedMatches(locals: seq<LocalId>, slots: Slots)
    requires Numbered(locals, slots)
    ensures FrameMatches(slots, locals)
  {
  }

  // ---- Optimize and the run of the method ----

  lemma FlagAt(before: seq<Instr>, after: seq<Instr>, live: set<nat>, i: nat)
    requires Liveness.LiveIs(before, after, live) && i < |before|
    ensures |after| == |before| && after[i] == before[i].(live := after[i].live)
  {
    hide TableRow;
  }

  lemma {:induction false} FlagsKeepLabels(before: seq<Instr>, after: seq<Instr>, live: set<nat>, k: nat)
    requires Liveness.LiveIs(before, after, live) && k <= |before|
    ensures |after| == |before| && LabelsTo(after, k) == LabelsTo(before, k)
  {
    if k > 0 {
      FlagAt(before, after, live, k - 1);
      FlagsKeepLabels(before, after, live, k - 1);
      SameLabel(before, after, k);
      hide *;
    }
  }

  lemma SameLabel(before: seq<Instr>, after: seq<Instr>, k: nat)
    requires 0 < k <= |before| == |after| && LabelsTo(after, k - 1) == LabelsTo(before, k - 1)
    requires after[k - 1].op == before[k - 1].op && Name(after[k - 1]) == Name(before[k - 1])
    ensures LabelsTo(after, k) == LabelsTo(before, k)
  {
    hide TableRow, Name;
  }

  lemma {:induction false} FlagsKeepFirstReal(before: seq<Instr>, after: seq<Instr>, live: set<nat>, k: nat)
    requires Liveness.LiveIs(before, after, live) && k <= |before|
    ensures |after| == |before| && FirstReal(after, k) == FirstReal(before, k)
    decreases |before| - k
  {
    hide TableRow;
    if k < |before| {
      FlagAt(before, after, live, k);
      hide Liveness.LiveIs;
      FlagsKeepFirstReal(before, after, live, k + 1);
    }
  }

  lemma FlagKeepsAction(i: Instr, live: bool, frame: Frame)
    ensures SourceAction(i.(live := live), frame) == SourceAction(i, frame)
    ensures OperandFits(i.(live := live)) == OperandFits(i)
  {
    hide TableRow;
  }

  // Marking instructions live changes no run of the list.
  lemma {:induction false} FlagsKeepRuns<S>(before: seq<Instr>, after: seq<Instr>, live: set<nat>, frame: Frame,
                                            sem: (Action<()>, S) -> Simulation.Outcome<S>, s: S, n: nat)
    requires Liveness.LiveIs(before, after, live)
    ensures SourceRun(after, frame, sem, s, n) == SourceRun(before, frame, sem, s, n)
  {
    hide TableRow, SourceAction, Blank, JumpTarget, LabelsOf, Liveness.LiveIs;
    if n > 0 {
      FlagsKeepRuns(before, after, live, frame, sem, s, n - 1);
      var c := SourceRun(before, frame, sem, s, n - 1);
      FlagsKeepAllLabels(before, after, live);
      if c.Running? && 0 <= c.at <= |before| {
        FlagsKeepFirstReal(before, after, live, c.at);
        var j := FirstReal(before, c.at);
        if j < |before| {
          FlagAt(before, after, live, j);
          FlagKeepsAction(before[j], after[j].live, frame);
        }
      }
    }
  }

  lemma FlagsKeepAllLabels(before: seq<Instr>, after: seq<Instr>, live: set<nat>)
    requires Liveness.LiveIs(before, after, live)
    ensures |after| == |before| && LabelsOf(after) == LabelsOf(before)
  {
    hide TableRow, LabelsTo, Liveness.LiveIs;
    FlagsKeepLabels(before, after, live, |before|);
  }

  lemma FlagsKeepWellFormed(before: seq<Instr>, after: seq<Instr>, live: set<nat>, frame: Frame)
    requires Liveness.LiveIs(before, after, live) && WellFormed(before) && SlotsExist(before, frame)
    ensures WellFormed(after) && SlotsExist(after, frame) && SizeTo(after, |after|) == SizeTo(before, |before|)
  {
    hide TableRow, OperandFits, LabelsOf, SizeTo, SourceAction, Misencoded, Liveness.LiveIs;
    FlagsKeepAllLabels(before, after, live);
    FlagsKeepSize(before, after, live, |before|);
    forall i | 0 <= i < |before|
      ensures OperandFits(after[i]) && after[i] == before[i].(live := after[i].live)
              && SourceAction(after[i], frame) == SourceAction(before[i], frame)
    {
      FlagAt(before, after, live, i);
      FlagKeepsAction(before[i], after[i].live, frame);
    }
  }

  lemma {:induction false} FlagsKeepSize(before: seq<Instr>, after: seq<Instr>, live: set<nat>, k: nat)
    requires Liveness.LiveIs(before, after, live) && k <= |before|
    ensures |after| == |before| && SizeTo(after, k) == SizeTo(before, k)
  {
    hide TableRow;
    if k > 0 {
      FlagAt(before, after, live, k - 1);
      hide Liveness.LiveIs;
      FlagsKeepSize(before, after, live, k - 1);
    }
  }

  // What a successful Optimize leaves of a list with the given live flags.
  ghost predicate IsOptimized(source: seq<Instr>, final: seq<Instr>, locals: seq<LocalId>, index: Slots) {
    exists flagged ::
      && Flagged(source, flagged) && Declared(source, locals) && Numbered(locals, index)
      && LocalsHaveSlots(flagged, index)
      && LabelsIn(Optimized(flagged, index), LabelsOf(flagged)) && LocalsHaveSlots(Optimized(flagged, index), index)
      && OptimizeStatus(flagged, index).Done?
      && final == Optimized(flagged, index)
  }

  // A method whose Optimize succeeds can be compiled, and its bytes, run with
  // the locals in the order of the local signature, do after any number of
  // steps what the list does that was optimized.
  lemma OptimizedIsCorrect<S>(source: seq<Instr>, final: seq<Instr>, locals: seq<LocalId>, index: Slots,
                              sem: (Action<()>, S) -> Simulation.Outcome<S>, s: S, n: nat)
    requires WellFormed(source) && SlotsExist(source, locals) && IsOptimized(source, final, locals, index)
    requires SizeTo(final, |final|) < 0x8000_0000
    ensures Encodable(final, LabelsOf(final), index) && OffsetsCurrent(final)
    ensures (exists bs :: StandsFor(TagsOf(final), bs)) <==> !EndsInTry(TagsOf(final))
    ensures Corresponds(final, SourceRun(source, locals, sem, s, n),
                        ByteRun(RenderedAll(final, LabelsOf(final), index), locals, sem, s, n))
  {
    hide TableRow, OperandFits, Optimized, LabelsOf, SourceRun, ByteRun, RenderedAll, Check, SizeTo, Corresponds, SehStatus,
         Liveness.IsLeastClosed, Liveness.LiveIs, WellFormed, SlotsExist, PeepholeAll, EndsInTry, StandsFor, TagsTo;
    var flagged :| Flagged(source, flagged) && LocalsHaveSlots(flagged, index)
      && LabelsIn(Optimized(flagged, index), LabelsOf(flagged)) && LocalsHaveSlots(Optimized(flagged, index), index)
      && OptimizeStatus(flagged, index).Done? && final == Optimized(flagged, index);
    var live :| Liveness.IsLeastClosed(source, live) && Liveness.LiveIs(source, flagged, live);
    NumberedMatches(locals, index);
    FlagsKeepWellFormed(source, flagged, live, locals);
    FlagsKeepRuns(source, flagged, live, locals, sem, s, n);
    AssemblerIsCorrect(flagged, index, locals, sem, s, n);
    AcceptedIsAssembled(flagged, index, locals);
    WellFormedFits(flagged);
    OptimizedRewrites(flagged, index, locals);
    AcceptedHasClauses(flagged, index);
  }

  // So its bytes do what the list does that its author wrote.
  lemma MethodIsCorrect<S>(source: seq<Instr>, final: seq<Instr>, locals: seq<LocalId>, index: Slots,
                           sem: (Action<()>, S) -> Simulation.Outcome<S>, s: S, n: nat)
    requires WellWritten(source) && IsOptimized(source, final, locals, index) && SizeTo(final, |final|) < 0x8000_0000
    ensures Encodable(final, LabelsOf(final), index) && OffsetsCurrent(final)
    ensures (exists bs :: StandsFor(TagsOf(final), bs)) <==> !EndsInTry(TagsOf(final))
    ensures Corresponds(final, SourceRun(source, [], sem, s, n),
                        ByteRun(RenderedAll(final, LabelsOf(final), index), locals, sem, s, n))
  {
    WellWrittenSlotsExist(source, locals);
    NoSlotsNamed(source, locals, [], sem, s, n);
    hide TableRow, LabelsOf, SourceRun, ByteRun, RenderedAll, SizeTo, Corresponds, WellFormed, SlotsExist, EndsInTry, StandsFor,
         TagsTo, IsOptimized, Encodable;
    OptimizedIsCorrect(source, final, locals, index, sem, s, n);
  }

  // ---- Optimizing a second time ----

  // The optimized list runs as its source does, in the order of its locals.
  lemma OptimizedKeepsRuns<S>(source: seq<Instr>, final: seq<Instr>, locals: seq<LocalId>, index: Slots,
                              sem: (Action<()>, S) -> Simulation.Outcome<S>, s: S, n: nat)
    requires WellFormed(source) && SlotsExist(source, locals) && IsOptimized(source, final, locals, index)
    ensures WellFormed(final) && SlotsExist(final, locals)
    ensures SourceRun(final, locals, sem, s, n) == SourceRun(source, locals, sem, s, n)
  {
    hide TableRow, OperandFits, Optimized, LabelsOf, SourceRun, Check, SizeTo, SehStatus, Liveness.IsLeastClosed, Liveness.LiveIs,
         WellFormed, SlotsExist, PeepholeAll, OptimizeStatus, Rewrites, LabelsIn;
    var flagged :| Flagged(source, flagged) && LocalsHaveSlots(flagged, index)
      && LabelsIn(Optimized(flagged, index), LabelsOf(flagged)) && LocalsHaveSlots(Optimized(flagged, index), index)
      && OptimizeStatus(flagged, index).Done? && final == Optimized(flagged, index);
    var live :| Liveness.IsLeastClosed(source, live) && Liveness.LiveIs(source, flagged, live);
    NumberedMatches(locals, index);
    FlagsKeepWellFormed(source, flagged, live, locals);
    FlagsKeepRuns(source, flagged, live, locals, sem, s, n);
    WellFormedFits(flagged);
    OptimizedRewrites(flagged, index, locals);
    RewritesKeepWellFormed(flagged, final, locals);
    RewritesKeepRuns(flagged, final, locals, sem, s, n);
  }

  // A second Optimize keeps what every instruction of the once optimized list
  // does exactly when each slot such an instruction names outright holds the
  // same local in the new order.
  lemma SecondOptimizeKeepsActionsIff(once: seq<Instr>, first: seq<LocalId>, second: seq<LocalId>)
    ensures (forall i :: 0 <= i < |once| ==> SourceAction(once[i], second) == SourceAction(once[i], first))
            <==> SlotsKept(once, first, second)
  {
    hide TableRow, SourceAction, SlotsKept;
    ActionsKeptIff(once, first, second);
  }

  // Then the bytes after the second call still run as the author's list does.
  lemma SecondOptimizeIsCorrect<S>(source: seq<Instr>, once: seq<Instr>, first: seq<LocalId>, index1: Slots,
                                   twice: seq<Instr>, second: seq<LocalId>, index2: Slots,
                                   sem: (Action<()>, S) -> Simulation.Outcome<S>, s: S, n: nat)
    requires WellWritten(source) && IsOptimized(source, once, first, index1)
    requires IsOptimized(once, twice, second, index2) && SizeTo(twice, |twice|) < 0x8000_0000
    requires SlotsKept(once, first, second)
    ensures Corresponds(twice, SourceRun(source, [], sem, s, n),
                        ByteRun(RenderedAll(twice, LabelsOf(twice), index2), second, sem, s, n))
  {
    WellWrittenSlotsExist(source, first);
    NoSlotsNamed(source, first, [], sem, s, n);
    hide TableRow, LabelsOf, SourceRun, ByteRun, RenderedAll, SizeTo, Corresponds, WellFormed, EndsInTry, StandsFor, TagsTo,
         IsOptimized, Encodable, SourceAction, SlotsKept;
    OptimizedKeepsRuns(source, once, first, index1, sem, s, n);
    SecondOptimizeKeepsActionsIff(once, first, second);
    SlotsKeptRuns(once, first, second, sem, s, n);
    OptimizedIsCorrect(once, twice, second, index2, sem, s, n);
  }

  function Store(v: LocalId): Instr {
    Instr(STLOC, LocalOperand(v), [], SehTry, false, 0, 0, true)
  }

  function FiveStores(): seq<Instr> { [Store(0), Store(1), Store(2), Store(3), Store(4)] }

  const FIRST_NUMBERING: Slots := map[0 := 0, 1 := 1, 2 := 2, 3 := 3, 4 := 4]

  function OptimizedOnce(): (once: seq<Instr>)
    ensures |once| == 5
  {
    PeepholeAll(FiveStores(), FIRST_NUMBERING)
  }

  // Only the accesses that kept their operand are counted again, so locals
  // that got a one-byte form fall behind and stloc.0 names another local: any
  // order the second call may choose puts local 4 first.
  lemma SecondOptimizeChangesMeaning(again: seq<LocalId>, counts: Uses)
    requires forall v :: v in again <==> v in {0, 1, 2, 3, 4}
    requires forall v :: v in again ==>
               v in counts && counts[v] == CountTo(FiveStores(), 5, v) + CountTo(OptimizedOnce(), 5, v)
    requires ByUse(again, counts)
    ensures SourceAction(OptimizedOnce()[0], [0, 1, 2, 3, 4]) == Some(Action(STLOC, LocalArg(0)))
    ensures SourceAction(FiveStores()[0], []) == Some(Action(STLOC, LocalArg(0)))
    ensures SourceAction(OptimizedOnce()[0], again) == Some(Action(STLOC, LocalArg(4)))
  {
    OnceForms();
    StoreForms(FIRST_NUMBERING);
    hide TableRow, Peephole, SourceAction, CountTo, OptimizedOnce, FiveStores;
    StoreCounts(FiveStores(), OptimizedOnce());
    assert 4 in again && again[0] in again;
    assert again[0] == 4;
  }

  lemma OnceForms()
    ensures OptimizedOnce()[0] == Store(0).(op := STLOC_0, operand := NoOperand) && FiveStores()[0] == Store(0)
    ensures forall v: nat :: v < 4 ==> OptimizedOnce()[v].operand == NoOperand
    ensures OptimizedOnce()[4].operand == LocalOperand(4)
  {
    StoreForms(FIRST_NUMBERING);
    hide TableRow, Peephole, SourceAction;
    assert forall v: nat :: v < 5 ==> FiveStores()[v] == Store(v);
  }

  lemma StoreCounts(code: seq<Instr>, once: seq<Instr>)
    requires code == FiveStores() && |once| == 5
    requires forall v: nat :: v < 4 ==> once[v].operand == NoOperand
    requires once[4].operand == LocalOperand(4)
    ensures forall v: nat :: v < 5 ==> CountTo(code, 5, v) == 1 && CountTo(once, 5, v) == if v == 4 then 1 else 0
  {
    hide TableRow;
    forall v: nat | v < 5 ensures CountTo(code, 5, v) == 1 && CountTo(once, 5, v) == if v == 4 then 1 else 0 {
      assert CountTo(code, 2, v) == if v <= 1 then 1 else 0;
      assert CountTo(code, 4, v) == if v <= 3 then 1 else 0;
      NoneCounted(once, 4, v);
    }
  }

  lemma {:induction false} NoneCounted(code: seq<Instr>, k: nat, v: LocalId)
    requires k <= |code| && forall i :: 0 <= i < k ==> code[i].operand == NoOperand
    ensures CountTo(code, k, v) == 0
  {
    hide TableRow;
    if k > 0 {
      NoneCounted(code, k - 1, v);
    }
  }

  lemma StoreForms(slots: Slots)
    requires slots == map[0 := 0, 1 := 1, 2 := 2, 3 := 3, 4 := 4]
    ensures forall v: nat :: v < 4 ==> Peephole(Store(v), slots) == Store(v).(op := STLOC_0 + v, operand := NoOperand)
    ensures Peephole(Store(4), slots) == Store(4).(op := STLOC_S)
    ensures SourceAction(Store(0), []) == Some(Action(STLOC, LocalArg(0)))
    ensures forall frame: Frame :: |frame| > 0 ==>
              SourceAction(Store(0).(op := STLOC_0, operand := NoOperand), frame) == Some(Action(STLOC, LocalArg(frame[0])))
  {
    assert Canonical(STLOC) == STLOC && Canonical(STLOC_0) == STLOC_0;
  }
}
