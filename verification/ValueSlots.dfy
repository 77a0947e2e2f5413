// The values of the edges in the local variable slots the writer gives them,
// where a 64-bit value takes two (section 2.6.1 of the Java virtual machine
// specification).
module ValueSlots {
  import opened Bytes
  import opened EdgeLowering
  import opened FunctionSlots
  import LoopPrinting
  import WholeFunction

  datatype Frame = Frame(slots: map<Reg, nat>, wide: set<Reg>)

  // A slot holds a value of 32 bits, or one half of a value of 64.
  datatype Word = Whole(n: int) | Low(n: int) | High(n: int)

  type Words = map<nat, Word>

  function Read(f: Frame, words: Words, r: Reg): Option<int>
    requires r in f.slots
  {
    var k := f.slots[r];
    if r in f.wide then
      if k in words && k + 1 in words && words[k].Low? && words[k + 1] == High(words[k].n) then Some(words[k].n) else None
    else if k in words && words[k].Whole? then Some(words[k].n)
    else None
  }

  function Write(f: Frame, words: Words, r: Reg, v: int): Words
    requires r in f.slots
  {
    var k := f.slots[r];
    if r in f.wide then words[k := Low(v)][k + 1 := High(v)] else words[k := Whole(v)]
  }

  // ---- The machine with slots ----

  datatype SlotState = SlotState(pc: nat, stack: seq<int>, words: Words)

  function SlotStep(code: seq<Instr>, f: Frame, s: SlotState): Option<SlotState> {
    if s.pc >= |code| then None
    else match code[s.pc]
      case Load(Value(r)) =>
        if r in f.slots && Read(f, s.words, r).Some? then
          Some(SlotState(s.pc + 1, [Read(f, s.words, r).value] + s.stack, s.words))
        else None
      case Store(r) =>
        if s.stack == [] || r !in f.slots then None
        else Some(SlotState(s.pc + 1, s.stack[1..], Write(f, s.words, r, s.stack[0])))
      case _ =>
        match Step(code, State(s.pc, s.stack, map[]))
        case None => None
        case Some(t) => Some(SlotState(t.pc, t.stack, s.words))
  }

  function SlotSteps(code: seq<Instr>, f: Frame, s: SlotState, n: nat): Option<SlotState>
    decreases n
  {
    if n == 0 then Some(s)
    else if AtBlock(code, s.pc) then None
    else match SlotStep(code, f, s)
      case None => None
      case Some(t) => SlotSteps(code, f, t, n - 1)
  }

  ghost predicate SlotLeads(code: seq<Instr>, f: Frame, s: SlotState, t: SlotState) {
    exists n :: SlotSteps(code, f, s, n) == Some(t)
  }

  // ---- Slots stand for registers ----

  ghost predicate Holds(f: Frame, words: Words, regs: Regs) {
    forall r :: r in f.slots ==> Read(f, words, r) == Some(Get(regs, r))
  }

  ghost predicate Owned(f: Frame, k: nat) {
    exists r :: r in f.slots && f.slots[r] <= k < f.slots[r] + WidthOf(r, f.wide)
  }

  // The slots that are no value's, those of the setjmp calls among them.
  ghost predicate OthersKept(f: Frame, before: Words, after: Words) {
    forall k: nat :: !Owned(f, k) ==> (k in before <==> k in after) && (k in before ==> before[k] == after[k])
  }

  lemma WriteIsRead(f: Frame, words: Words, r: Reg, v: int, q: Reg)
    requires r in f.slots && q in f.slots && Apart(f.slots, f.wide)
    ensures Read(f, Write(f, words, r, v), q) == if q == r then Some(v) else Read(f, words, q)
  {
  }

  lemma WriteKeepsOthers(f: Frame, words: Words, r: Reg, v: int)
    requires r in f.slots
    ensures OthersKept(f, words, Write(f, words, r, v))
  {
    forall k: nat | !Owned(f, k)
      ensures (k in words <==> k in Write(f, words, r, v)) && (k in words ==> words[k] == Write(f, words, r, v)[k])
    {
      assert !(f.slots[r] <= k < f.slots[r] + WidthOf(r, f.wide));
    }
  }

  lemma StoreHolds(f: Frame, words: Words, regs: Regs, r: Reg, v: int)
    requires r in f.slots && Apart(f.slots, f.wide) && Holds(f, words, regs)
    ensures Holds(f, Write(f, words, r, v), regs[r := v])
  {
    hide Read, Write, Apart;
    forall q | q in f.slots ensures Read(f, Write(f, words, r, v), q) == Some(Get(regs[r := v], q)) {
      WriteIsRead(f, words, r, v, q);
    }
  }

  // Every value the code names has its slot.
  ghost predicate Allocated(code: seq<Instr>, f: Frame) {
    forall i :: 0 <= i < |code| ==>
      match code[i]
      case Load(Value(r)) => r in f.slots
      case Store(r) => r in f.slots
      case _ => true
  }

  // The same state, with the registers in their slots.
  ghost predicate Stands(f: Frame, s: State, words: Words, t: SlotState) {
    t.pc == s.pc && t.stack == s.stack && Holds(f, t.words, s.regs) && OthersKept(f, words, t.words)
  }

  lemma StepFollows(code: seq<Instr>, f: Frame, s: State, words: Words)
    requires Allocated(code, f) && Apart(f.slots, f.wide) && Holds(f, words, s.regs)
    ensures var next := SlotStep(code, f, SlotState(s.pc, s.stack, words));
            match Step(code, s)
            case None => next == None
            case Some(t) => next.Some? && Stands(f, t, words, next.value)
  {
    hide Read, Write, Apart;
    if s.pc < |code| {
      match code[s.pc] {
        case Store(r) =>
          if s.stack != [] {
            StoreHolds(f, words, s.regs, r, s.stack[0]);
            WriteKeepsOthers(f, words, r, s.stack[0]);
          }
        case _ =>
      }
    }
  }

  lemma OthersKeptOn(f: Frame, a: Words, b: Words, c: Words)
    requires OthersKept(f, a, b) && OthersKept(f, b, c)
    ensures OthersKept(f, a, c)
  {
    hide Owned;
  }

  lemma {:induction false} StepsFollow(code: seq<Instr>, f: Frame, s: State, words: Words, n: nat)
    requires Allocated(code, f) && Apart(f.slots, f.wide) && Holds(f, words, s.regs)
    ensures var end := SlotSteps(code, f, SlotState(s.pc, s.stack, words), n);
            match Steps(code, s, n)
            case None => end == None
            case Some(t) => end.Some? && Stands(f, t, words, end.value)
    decreases n
  {
    hide Step, SlotStep, Holds, OthersKept, Apart, Allocated;
    NothingChanged(f, words);
    if n > 0 && !AtBlock(code, s.pc) {
      StepFollows(code, f, s, words);
      if Step(code, s).Some? {
        var t, u := Step(code, s).value, SlotStep(code, f, SlotState(s.pc, s.stack, words)).value;
        StepsFollow(code, f, t, u.words, n - 1);
        var end := SlotSteps(code, f, u, n - 1);
        if end.Some? {
          OthersKeptOn(f, words, u.words, end.value.words);
        }
      }
    }
  }

  lemma NothingChanged(f: Frame, words: Words)
    ensures OthersKept(f, words, words)
  {
  }

  // Wherever the registers lead, the slots lead as well, and only there.
  lemma LeadsFollows(code: seq<Instr>, f: Frame, s: State, words: Words, t: State) returns (u: SlotState)
    requires Allocated(code, f) && Apart(f.slots, f.wide) && Holds(f, words, s.regs) && Leads(code, s, t)
    ensures SlotLeads(code, f, SlotState(s.pc, s.stack, words), u) && Stands(f, t, words, u)
  {
    hide Steps, SlotSteps, Holds, Stands, Apart, Allocated;
    var n: nat :| Steps(code, s, n) == Some(t);
    StepsFollow(code, f, s, words, n);
    u := SlotSteps(code, f, SlotState(s.pc, s.stack, words), n).value;
  }

  lemma SlotLeadsBack(code: seq<Instr>, f: Frame, s: State, words: Words, u: SlotState) returns (t: State)
    requires Allocated(code, f) && Apart(f.slots, f.wide) && Holds(f, words, s.regs)
    requires SlotLeads(code, f, SlotState(s.pc, s.stack, words), u)
    ensures Leads(code, s, t) && Stands(f, t, words, u)
  {
    hide Steps, SlotSteps, Holds, Stands, Apart, Allocated;
    var n: nat :| SlotSteps(code, f, SlotState(s.pc, s.stack, words), n) == Some(u);
    StepsFollow(code, f, s, words, n);
    t := Steps(code, s, n).value;
  }

  // ---- Slots apart can hold anything, others cannot ----

  ghost function Filled(f: Frame, regs: Regs, rs: set<Reg>): Words
    requires rs <= f.slots.Keys
  {
    if rs == {} then map[]
    else
      var r :| r in rs;
      Write(f, Filled(f, regs, rs - {r}), r, Get(regs, r))
  }

  lemma {:induction false} FilledHolds(f: Frame, regs: Regs, rs: set<Reg>)
    requires rs <= f.slots.Keys && Apart(f.slots, f.wide)
    ensures forall r :: r in rs ==> Read(f, Filled(f, regs, rs), r) == Some(Get(regs, r))
    decreases rs
  {
    hide Read, Write, Apart;
    if rs != {} {
      var r :| r in rs && Filled(f, regs, rs) == Write(f, Filled(f, regs, rs - {r}), r, Get(regs, r));
      FilledHolds(f, regs, rs - {r});
      forall q | q in rs ensures Read(f, Filled(f, regs, rs), q) == Some(Get(regs, q)) {
        WriteIsRead(f, Filled(f, regs, rs - {r}), r, Get(regs, r), q);
      }
    }
  }

  lemma SharedSlotShows(f: Frame, v: Reg, w: Reg, words: Words)
    requires v in f.slots && w in f.slots && v != w && f.slots[v] <= f.slots[w] < f.slots[v] + WidthOf(v, f.wide)
    ensures !Holds(f, words, map[v := 1, w := 2])
  {
    var regs: Regs := map[v := 1, w := 2];
    assert Get(regs, v) == 1 && Get(regs, w) == 2;
    assert v in f.slots && w in f.slots;
  }

  ghost predicate CanHold(f: Frame, regs: Regs) { exists words :: Holds(f, words, regs) }

  // The slots can hold any values at once exactly when no two values share one.
  lemma SlotsHoldAnythingIff(f: Frame)
    ensures (forall regs :: CanHold(f, regs)) <==> Apart(f.slots, f.wide)
  {
    hide Read, Write, Filled;
    if Apart(f.slots, f.wide) {
      forall regs ensures CanHold(f, regs) {
        FilledHolds(f, regs, f.slots.Keys);
        assert Holds(f, Filled(f, regs, f.slots.Keys), regs);
      }
    } else {
      var v, w :| v in f.slots && w in f.slots && v != w
                  && f.slots[v] <= f.slots[w] < f.slots[v] + WidthOf(v, f.wide);
      forall words ensures !Holds(f, words, map[v := 1, w := 2]) {
        SharedSlotShows(f, v, w, words);
      }
      assert !CanHold(f, map[v := 1, w := 2]);
    }
  }

  // ---- Every name in the output has its slot ----

  ghost predicate PhisAllocated(phis: seq<Phi>, f: Frame) {
    forall k :: 0 <= k < |phis| ==> phis[k].result in f.slots && (phis[k].incoming.Value? ==> phis[k].incoming.r in f.slots)
  }

  ghost predicate EndAllocated(end: End, f: Frame) {
    match end
    case Always(_, phis) => PhisAllocated(phis, f)
    case Either(_, tPhis, _, fPhis) => PhisAllocated(tPhis, f) && PhisAllocated(fPhis, f)
  }

  ghost predicate BlocksAllocated(blocks: WholeFunction.Blocks, f: Frame) {
    forall b :: b in blocks ==> Allocated(blocks[b].data, f) && EndAllocated(blocks[b].end, f)
  }

  lemma AllocatedAdd(a: seq<Instr>, b: seq<Instr>, f: Frame)
    requires Allocated(a, f) && Allocated(b, f)
    ensures Allocated(a + b, f)
  {
  }

  lemma {:induction false} CopiesAllocated(phis: seq<Phi>, f: Frame)
    requires PhisAllocated(phis, f)
    ensures Allocated(Copies(phis), f)
  {
    if phis != [] {
      CopiesAllocated(phis[1..], f);
      var head := if phis[0].incoming.Undef? then [] else [Load(phis[0].incoming), Store(phis[0].result)];
      AllocatedAdd(head, Copies(phis[1..]), f);
    }
  }

  lemma OneTargetAllocated(dest: nat, phis: seq<Phi>, f: Frame)
    requires PhisAllocated(phis, f)
    ensures Allocated(OneTarget(dest, phis), f)
  {
    CopiesAllocated(phis, f);
    hide Copies;
    AllocatedAdd(Copies(phis), [Goto(Block(dest))], f);
  }

  lemma EndCodeAllocated(end: End, uid: nat, rewrite: bool, id: nat, f: Frame)
    requires EndAllocated(end, f)
    ensures Allocated(EndCode(end, uid, rewrite, id), f)
  {
    hide OneTarget, PhisAllocated;
    match end {
      case Always(dest, phis) => OneTargetAllocated(dest, phis, f);
      case Either(t, tPhis, e, ePhis) =>
        OneTargetAllocated(t, tPhis, f);
        OneTargetAllocated(e, ePhis, f);
        if t == e {
          AllocatedAdd([Pop], OneTarget(t, tPhis), f);
        } else {
          var l := TrueLabel(t, tPhis, uid);
          AllocatedAdd([Mark(EdgeLabel(t, uid))], OneTarget(t, tPhis), f);
          AllocatedAdd(Conditional(rewrite, IfNe, l, id), OneTarget(e, ePhis), f);
          AllocatedAdd(Conditional(rewrite, IfNe, l, id) + OneTarget(e, ePhis), Trampoline(t, tPhis, uid), f);
        }
    }
  }

  lemma {:induction false} PrintedAllocated(items: seq<LoopPrinting.Item>, k: nat, blocks: WholeFunction.Blocks, rewrite: bool, f: Frame)
    requires k <= |items| && BlocksAllocated(blocks, f)
    ensures Allocated(WholeFunction.Printed(items, k, blocks, rewrite).code, f)
  {
    hide Allocated, EndAllocated, EndCode;
    if k == 0 {
      NothingAllocated(f);
    } else {
      PrintedAllocated(items, k - 1, blocks, rewrite, f);
      WholeFunction.PieceIsAppended(items, k - 1, blocks, rewrite);
      var out := WholeFunction.Printed(items, k - 1, blocks, rewrite);
      PieceAllocated(items, k - 1, blocks, rewrite, f);
      AllocatedAdd(out.code, WholeFunction.Piece(items, k - 1, blocks, rewrite), f);
    }
  }

  lemma NothingAllocated(f: Frame)
    ensures Allocated([], f)
  {
  }

  lemma LabelAllocated(b: nat, f: Frame)
    ensures Allocated([Mark(Block(b))], f) && Allocated([Goto(Block(b))], f)
  {
  }

  lemma PieceAllocated(items: seq<LoopPrinting.Item>, k: nat, blocks: WholeFunction.Blocks, rewrite: bool, f: Frame)
    requires k < |items| && BlocksAllocated(blocks, f)
    ensures Allocated(WholeFunction.Piece(items, k, blocks, rewrite), f)
  {
    hide Allocated, EndAllocated, EndCode, WholeFunction.Printed;
    NothingAllocated(f);
    match items[k] {
      case Mark(b) => LabelAllocated(b, f);
      case Back(h) => LabelAllocated(h, f);
      case Body(b) =>
        if b in blocks {
          var out := WholeFunction.Printed(items, k, blocks, rewrite);
          EndCodeAllocated(blocks[b].end, out.uid + 1, rewrite, out.branchId, f);
          AllocatedAdd(blocks[b].data, EndCode(blocks[b].end, out.uid + 1, rewrite, out.branchId), f);
        }
    }
  }

  // ---- What an edge does to the slots ----

  ghost predicate Readable(f: Frame, words: Words) { forall r :: r in f.slots ==> Read(f, words, r).Some? }

  function Came(f: Frame, v: Incoming, words: Words): Option<int> {
    match v
    case Undef => None
    case Const(n) => Some(n)
    case Value(r) => if r in f.slots then Read(f, words, r) else None
  }

  ghost predicate Gets(phis: seq<Phi>, r: Reg) {
    exists j :: 0 <= j < |phis| && !phis[j].incoming.Undef? && phis[j].result == r
  }

  // The slots of every PHI hold its incoming value, all other slots what they
  // held, whether they are a value's or not.
  ghost predicate Moved(f: Frame, phis: seq<Phi>, before: Words, after: Words)
    requires PhisAllocated(phis, f)
  {
    && (forall k :: 0 <= k < |phis| && !phis[k].incoming.Undef? ==>
          Read(f, after, phis[k].result) == Came(f, phis[k].incoming, before))
    && (forall r :: r in f.slots && !Gets(phis, r) ==> Read(f, after, r) == Read(f, before, r))
    && OthersKept(f, before, after)
  }

  lemma {:induction false} OthersUntouched(phis: seq<Phi>, n: nat, regs: Regs, r: Reg)
    requires n <= |phis| && !Gets(phis, r)
    ensures Get(Sequential(phis, n, regs), r) == Get(regs, r)
  {
    if n > 0 {
      OthersUntouched(phis, n - 1, regs, r);
    }
  }

  lemma MovedIffReceived(f: Frame, phis: seq<Phi>, regs: Regs, before: Words, after: Words)
    requires PhisAllocated(phis, f) && OthersKept(f, before, after)
    requires Holds(f, before, regs) && Holds(f, after, Sequential(phis, |phis|, regs))
    ensures Moved(f, phis, before, after) <==> Received(phis, regs, Sequential(phis, |phis|, regs))
  {
    hide Read, OthersKept, Sequential;
    var done := Sequential(phis, |phis|, regs);
    forall k | 0 <= k < |phis| && !phis[k].incoming.Undef?
      ensures Came(f, phis[k].incoming, before) == Some(Val(phis[k].incoming, regs))
      ensures Read(f, after, phis[k].result) == Some(Get(done, phis[k].result))
    {
    }
    forall r | !Gets(phis, r) ensures Get(done, r) == Get(regs, r) {
      OthersUntouched(phis, |phis|, regs, r);
    }
    forall r | forall j :: 0 <= j < |phis| && !phis[j].incoming.Undef? ==> phis[j].result != r ensures !Gets(phis, r) {
    }
  }

  ghost predicate SlotsKept(code: seq<Instr>, f: Frame, at: nat, end: End, v: int, target: nat, stack: seq<int>, words: Words)
    requires PhisAllocated(Taken(end, v).phis, f)
  {
    exists after :: SlotLeads(code, f, SlotState(at, AtEnd(end, at, v, stack, map[]).stack, words), SlotState(target, stack, after))
                    && Moved(f, Taken(end, v).phis, words, after)
  }

  // Whatever the slots of the values hold, and the stack.
  ghost predicate KeptFromAll(code: seq<Instr>, f: Frame, at: nat, end: End, v: int, target: nat)
    requires PhisAllocated(Taken(end, v).phis, f)
  {
    forall stack, words :: Readable(f, words) ==> SlotsKept(code, f, at, end, v, target, stack, words)
  }

  // The values in the slots as registers.
  function RegsOf(f: Frame, words: Words): Regs {
    map r | r in f.slots && Read(f, words, r).Some? :: Read(f, words, r).value
  }

  // The slots keep the meaning of an edge where the registers do.
  lemma SlotsKeptIfReceived(code: seq<Instr>, f: Frame, at: nat, end: End, v: int, target: nat, stack: seq<int>, words: Words,
                            regs: Regs)
    requires Allocated(code, f) && Apart(f.slots, f.wide) && PhisAllocated(Taken(end, v).phis, f) && Holds(f, words, regs)
    requires AtBlock(code, target)
    requires var phis := Taken(end, v).phis;
             Leads(code, AtEnd(end, at, v, stack, regs), State(target, stack, Sequential(phis, |phis|, regs)))
    ensures var phis := Taken(end, v).phis;
            SlotsKept(code, f, at, end, v, target, stack, words) <==> Received(phis, regs, Sequential(phis, |phis|, regs))
  {
    hide Leads, SlotLeads, Allocated, Apart, Moved, Received, Holds, Sequential, OthersKept, PhisAllocated, Taken;
    var phis, start := Taken(end, v).phis, AtEnd(end, at, v, stack, regs);
    var done := State(target, stack, Sequential(phis, |phis|, regs));
    var u := LeadsFollows(code, f, start, words, done);
    MovedIffReceived(f, phis, regs, words, u.words);
    if SlotsKept(code, f, at, end, v, target, stack, words) {
      var after :| SlotLeads(code, f, SlotState(at, start.stack, words), SlotState(target, stack, after))
                   && Moved(f, phis, words, after);
      var t := SlotLeadsBack(code, f, start, words, SlotState(target, stack, after));
      EntersOnce(code, start, t, done);
      MovedIffReceived(f, phis, regs, words, after);
    }
  }

  lemma RegsOfHold(f: Frame, words: Words)
    requires Readable(f, words)
    ensures Holds(f, words, RegsOf(f, words))
  {
    hide Read;
  }

  lemma HeldIsReadable(f: Frame, words: Words, regs: Regs)
    requires Holds(f, words, regs)
    ensures Readable(f, words)
  {
    hide Read;
  }

  lemma TakenAllocated(blocks: WholeFunction.Blocks, f: Frame, b: nat, v: int)
    requires BlocksAllocated(blocks, f) && b in blocks
    ensures PhisAllocated(Taken(blocks[b].end, v).phis, f)
  {
    hide PhisAllocated, Allocated;
  }

  lemma LabelIsBlock(code: seq<Instr>, b: nat, place: nat)
    requires MarkedAt(code, Block(b), place)
    ensures AtBlock(code, place)
  {
  }

  // In the printed function with the slots of its values, the edge taken at the
  // end of any block moves the incoming values into the slots of the PHIs and
  // touches no other slot, from all contents exactly when it loses no copy.
  lemma EveryEdgeMovesSlotsIff(order: seq<nat>, loops: seq<LoopPrinting.Loop>, blocks: WholeFunction.Blocks, rewrite: bool,
                               f: Frame, b: nat, v: int)
      returns (place: nat, target: nat)
    requires LoopPrinting.Nested(order, loops) && WholeFunction.DataOnly(blocks) && b in order && b in blocks
    requires OneListEach(blocks[b].end) && WholeFunction.Leaves(blocks[b].end, order)
    requires DistinctPhis(Taken(blocks[b].end, v).phis)
    requires Apart(f.slots, f.wide) && BlocksAllocated(blocks, f)
    ensures var code, end := WholeFunction.FunctionCode(order, loops, blocks, rewrite), blocks[b].end;
            var at, phis := place + 1 + |blocks[b].data|, Taken(end, v).phis;
            && MarkedAt(code, Block(b), place) && MarkedAt(code, Block(Taken(end, v).dest), target)
            && (KeptFromAll(code, f, at, end, v, target) <==> NoLostCopy(phis, |phis|))
  {
    hide Leads, SlotsKept, EdgeKept, NoLostCopy, DistinctPhis, Apart, MarkedAt, Sequential, Received, BlocksAllocated,
         PhisAllocated, Holds, Readable, RegsOf, WholeFunction.Printed, WholeFunction.DataOnly, LoopPrinting.Nested,
         LoopPrinting.FunctionItems;
    var code, end := WholeFunction.FunctionCode(order, loops, blocks, rewrite), blocks[b].end;
    place, target := WholeFunction.EveryEdgeKeepsMeaningIff(order, loops, blocks, rewrite, b, v);
    var items := LoopPrinting.FunctionItems(order, loops);
    PrintedAllocated(items, |items|, blocks, rewrite, f);
    TakenAllocated(blocks, f, b, v);
    LabelIsBlock(code, Taken(end, v).dest, target);
    var at, phis := place + 1 + |blocks[b].data|, Taken(end, v).phis;
    if NoLostCopy(phis, |phis|) {
      forall stack, words | Readable(f, words) ensures SlotsKept(code, f, at, end, v, target, stack, words) {
        var regs := RegsOf(f, words);
        RegsOfHold(f, words);
        KeptCopyShows(phis, regs);
        SlotsKeptIfReceived(code, f, at, end, v, target, stack, words, regs);
      }
    } else {
      var regs := LostCopyShows(phis);
      SlotsHoldAnythingIff(f);
      assert CanHold(f, regs);
      var words :| Holds(f, words, regs);
      HeldIsReadable(f, words, regs);
      SlotsKeptIfReceived(code, f, at, end, v, target, [], words, regs);
    }
  }

  // ---- A loop that swaps two values ----

  const SWAP: seq<Phi> := [Phi(1, Value(2)), Phi(2, Value(1))]

  const SWAP_LOOP: LoopPrinting.Loop := LoopPrinting.Loop([0], [])

  const SWAP_BLOCKS: WholeFunction.Blocks := map[0 := WholeFunction.BlockCode([], Always(0, SWAP))]

  // The back edge of the loop is meant to swap its two values and does not.
  lemma SwapIsLost() returns (place: nat, target: nat)
    ensures var code := WholeFunction.FunctionCode([0], [SWAP_LOOP], SWAP_BLOCKS, false);
            var f, end, at := Frame(map[1 := 0, 2 := 1], {}), Always(0, SWAP), place + 1;
            && MarkedAt(code, Block(0), place) && MarkedAt(code, Block(0), target) && PhisAllocated(SWAP, f)
            && !KeptFromAll(code, f, at, end, 0, target)
  {
    var f := Frame(map[1 := 0, 2 := 1], {});
    SwapFits(f);
    SwapNested();
    assert Clobbers(SWAP, 0, 1) && !NoLostCopy(SWAP, 2);
    hide KeptFromAll, MarkedAt, LoopPrinting.Nested, NoLostCopy, BlocksAllocated, Apart, PhisAllocated, DistinctPhis,
         WholeFunction.DataOnly, OneListEach, WholeFunction.Leaves;
    place, target := EveryEdgeMovesSlotsIff([0], [SWAP_LOOP], SWAP_BLOCKS, false, f, 0, 0);
  }

  lemma SwapFits(f: Frame)
    requires f == Frame(map[1 := 0, 2 := 1], {})
    ensures Apart(f.slots, f.wide) && BlocksAllocated(SWAP_BLOCKS, f) && PhisAllocated(SWAP, f) && DistinctPhis(SWAP)
    ensures WholeFunction.DataOnly(SWAP_BLOCKS) && OneListEach(Always(0, SWAP)) && WholeFunction.Leaves(Always(0, SWAP), [0])
  {
  }

  lemma SwapNested()
    ensures LoopPrinting.Nested([0], [SWAP_LOOP])
  {
  }

  // What PrintFunction leaves is such a frame, and the slots of the setjmp
  // calls are no value's.
  lemma PrintedFrame(w: FunctionWriter, firstJump: nat)
    requires w.SlotsApart() && forall v :: v in w.localVars ==> w.localVars[v] + w.Width(v) <= firstJump
    ensures Apart(w.localVars, w.wide)
    ensures forall k :: k >= firstJump ==> !Owned(Frame(w.localVars, w.wide), k)
  {
  }
}
