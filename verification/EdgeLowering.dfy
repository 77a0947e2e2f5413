// SSA edges become label and goto code: PHI copies, edge trampolines and
// rewritten branches, against the meaning of the edge.
module EdgeLowering {
  import opened Bytes

  type Reg = nat

  datatype Incoming = Undef | Const(n: int) | Value(r: Reg)

  // A PHI of the destination, with its incoming value for the edge at hand.
  datatype Phi = Phi(result: Reg, incoming: Incoming)

  // Block labels, labels of edge trampolines, and labels of rewritten branches.
  datatype Label = Block(b: nat) | EdgeLabel(b: nat, uid: nat) | BranchLabel(n: nat)

  datatype Cond = IfEq | IfNe | IfLt | IfLe | IfGt | IfGe

  datatype Instr = Load(v: Incoming) | Store(r: Reg) | Pop | Goto(l: Label) | Branch(c: Cond, l: Label) | Mark(l: Label)

  // ---- The machine ----

  type Regs = map<Reg, int>

  datatype State = State(pc: nat, stack: seq<int>, regs: Regs)

  function Get(regs: Regs, r: Reg): int { if r in regs then regs[r] else 0 }

  function Val(v: Incoming, regs: Regs): int {
    match v case Undef => 0 case Const(n) => n case Value(r) => Get(regs, r)
  }

  predicate Holds(c: Cond, v: int) {
    match c
    case IfEq => v == 0
    case IfNe => v != 0
    case IfLt => v < 0
    case IfLe => v <= 0
    case IfGt => v > 0
    case IfGe => v >= 0
  }

  // The position of a label at or after i.
  function FindFrom(code: seq<Instr>, l: Label, i: nat): (r: Option<nat>)
    requires i <= |code|
    ensures r.Some? ==> i <= r.value < |code| && code[r.value] == Mark(l)
    decreases |code| - i
  {
    if i == |code| then None else if code[i] == Mark(l) then Some(i) else FindFrom(code, l, i + 1)
  }

  function Jump(code: seq<Instr>, l: Label, stack: seq<int>, regs: Regs): Option<State> {
    match FindFrom(code, l, 0)
    case None => None
    case Some(p) => Some(State(p, stack, regs))
  }

  function Step(code: seq<Instr>, s: State): Option<State> {
    if s.pc >= |code| then None
    else match code[s.pc]
      case Load(v) => Some(State(s.pc + 1, [Val(v, s.regs)] + s.stack, s.regs))
      case Store(r) =>
        if s.stack == [] then None else Some(State(s.pc + 1, s.stack[1..], s.regs[r := s.stack[0]]))
      case Pop => if s.stack == [] then None else Some(State(s.pc + 1, s.stack[1..], s.regs))
      case Goto(l) => Jump(code, l, s.stack, s.regs)
      case Branch(c, l) =>
        if s.stack == [] then None
        else if Holds(c, s.stack[0]) then Jump(code, l, s.stack[1..], s.regs)
        else Some(State(s.pc + 1, s.stack[1..], s.regs))
      case Mark(_) => Some(State(s.pc + 1, s.stack, s.regs))
  }

  predicate AtBlock(code: seq<Instr>, pc: nat) {
    pc < |code| && code[pc].Mark? && code[pc].l.Block?
  }

  // n steps that enter no block before the last of them is done.
  function Steps(code: seq<Instr>, s: State, n: nat): Option<State>
    decreases n
  {
    if n == 0 then Some(s)
    else if AtBlock(code, s.pc) then None
    else match Step(code, s)
      case None => None
      case Some(t) => Steps(code, t, n - 1)
  }

  ghost predicate Leads(code: seq<Instr>, s: State, t: State) {
    exists n :: Steps(code, s, n) == Some(t)
  }

  lemma {:induction false} StepsAdd(code: seq<Instr>, s: State, t: State, m: nat, n: nat)
    requires Steps(code, s, m) == Some(t)
    ensures Steps(code, s, m + n) == Steps(code, t, n)
    decreases m
  {
    hide Step;
    if m > 0 {
      StepsAdd(code, Step(code, s).value, t, m - 1, n);
    }
  }

  lemma {:induction false} LeadsOn(code: seq<Instr>, s: State, t: State, u: State)
    requires Leads(code, s, t) && Leads(code, t, u)
    ensures Leads(code, s, u)
  {
    hide Steps;
    var m :| Steps(code, s, m) == Some(t);
    var n :| Steps(code, t, n) == Some(u);
    StepsAdd(code, s, t, m, n);
  }

  lemma {:induction false} LeadsNow(code: seq<Instr>, s: State)
    ensures Leads(code, s, s)
  {
    assert Steps(code, s, 0) == Some(s);
  }

  lemma {:induction false} LeadsStep(code: seq<Instr>, s: State, t: State)
    requires Step(code, s) == Some(t) && !AtBlock(code, s.pc)
    ensures Leads(code, s, t)
  {
    hide Step;
    assert Steps(code, t, 0) == Some(t);
    assert Steps(code, s, 1) == Some(t);
  }

  // Only one block is entered first, and in one state.
  lemma {:induction false} EntersOnce(code: seq<Instr>, s: State, t: State, u: State)
    requires Leads(code, s, t) && Leads(code, s, u) && AtBlock(code, t.pc) && AtBlock(code, u.pc)
    ensures t == u
  {
    hide Steps;
    var m: nat :| Steps(code, s, m) == Some(t);
    var n: nat :| Steps(code, s, n) == Some(u);
    if m < n {
      StepsAdd(code, s, t, m, n - m);
      StopsAtBlock(code, t, n - m);
    } else if n < m {
      StepsAdd(code, s, u, n, m - n);
      StopsAtBlock(code, u, m - n);
    }
  }

  lemma {:induction false} StopsAtBlock(code: seq<Instr>, s: State, n: nat)
    requires AtBlock(code, s.pc) && n > 0
    ensures Steps(code, s, n) == None
  {
  }

  // ---- The emitted code ----

  function Copies(phis: seq<Phi>): seq<Instr> {
    if phis == [] then []
    else
      (if phis[0].incoming.Undef? then [] else [Load(phis[0].incoming), Store(phis[0].result)]) + Copies(phis[1..])
  }

  function Inverse(c: Cond): Cond {
    match c
    case IfNe => IfEq
    case IfEq => IfNe
    case IfLt => IfGe
    case IfLe => IfGt
    case IfGt => IfLe
    case IfGe => IfLt
  }

  // Short conditional branches reach 16 bits; a rewritten one jumps around a
  // wide goto.
  function Conditional(rewrite: bool, c: Cond, l: Label, id: nat): seq<Instr> {
    if rewrite then [Branch(Inverse(c), BranchLabel(id)), Goto(l), Mark(BranchLabel(id))] else [Branch(c, l)]
  }

  function OneTarget(dest: nat, phis: seq<Phi>): seq<Instr> { Copies(phis) + [Goto(Block(dest))] }

  function NoElse(dest: nat, phis: seq<Phi>, rewrite: bool, id: nat): seq<Instr> {
    Copies(phis) + Conditional(rewrite, IfNe, Block(dest), id)
  }

  // The label the conditional branch goes to.
  function TrueLabel(t: nat, tPhis: seq<Phi>, uid: nat): Label {
    if tPhis != [] then EdgeLabel(t, uid) else Block(t)
  }

  function Trampoline(t: nat, tPhis: seq<Phi>, uid: nat): seq<Instr> {
    if tPhis != [] then [Mark(EdgeLabel(t, uid))] + OneTarget(t, tPhis) else []
  }

  function TwoTargets(t: nat, tPhis: seq<Phi>, f: nat, fPhis: seq<Phi>, uid: nat, rewrite: bool, id: nat): seq<Instr> {
    if t == f then [Pop] + OneTarget(t, tPhis)
    else
      Conditional(rewrite, IfNe, TrueLabel(t, tPhis, uid), id) + OneTarget(f, fPhis) + Trampoline(t, tPhis, uid)
  }

  // How a block ends: with one successor, or with two and a condition.
  datatype End = Always(dest: nat, phis: seq<Phi>) | Either(t: nat, tPhis: seq<Phi>, f: nat, fPhis: seq<Phi>)

  function EndCode(end: End, uid: nat, rewrite: bool, id: nat): seq<Instr> {
    match end
    case Always(dest, phis) => OneTarget(dest, phis)
    case Either(t, tPhis, f, fPhis) => TwoTargets(t, tPhis, f, fPhis, uid, rewrite, id)
  }

  // The edge taken when the condition has value v.
  datatype Edge = Edge(dest: nat, phis: seq<Phi>)

  function Taken(end: End, v: int): Edge {
    match end
    case Always(dest, phis) => Edge(dest, phis)
    case Either(t, tPhis, f, fPhis) => if v != 0 then Edge(t, tPhis) else Edge(f, fPhis)
  }

  // A block has one list of PHI values for each of its predecessors.
  ghost predicate OneListEach(end: End) { end.Either? && end.t == end.f ==> end.tPhis == end.fPhis }

  // Where the end starts: with the condition on the stack if there is one.
  function AtEnd(end: End, at: nat, v: int, stack: seq<int>, regs: Regs): State {
    State(at, if end.Either? then [v] + stack else stack, regs)
  }

  // ---- What the copies do ----

  function Assign(regs: Regs, phi: Phi, from: Regs): Regs {
    if phi.incoming.Undef? then regs else regs[phi.result := Val(phi.incoming, from)]
  }

  // One after the other.
  function Sequential(phis: seq<Phi>, k: nat, regs: Regs): Regs
    requires k <= |phis|
  {
    if k == 0 then regs else Assign(Sequential(phis, k - 1, regs), phis[k - 1], Sequential(phis, k - 1, regs))
  }

  // All at once, as PHIs mean it; an undefined value leaves its PHI alone.
  function Parallel(phis: seq<Phi>, k: nat, regs: Regs): Regs
    requires k <= |phis|
  {
    if k == 0 then regs else Assign(Parallel(phis, k - 1, regs), phis[k - 1], regs)
  }

  ghost predicate DistinctPhis(phis: seq<Phi>) {
    forall i, j :: 0 <= i < j < |phis| ==> phis[i].result != phis[j].result
  }

  // PHI k reads PHI j after the copy to j has changed it.
  predicate Clobbers(phis: seq<Phi>, j: nat, k: nat)
    requires j < |phis| && k < |phis|
  {
    phis[k].incoming == Value(phis[j].result) && !phis[j].incoming.Undef? && phis[j].incoming != Value(phis[j].result)
  }

  ghost predicate NoLostCopy(phis: seq<Phi>, n: nat)
    requires n <= |phis|
  {
    forall j, k :: 0 <= j < k < n ==> !Clobbers(phis, j, k)
  }

  // What the PHIs hold half-way through a parallel assignment.
  lemma {:induction false} ParallelHolds(phis: seq<Phi>, k: nat, regs: Regs, r: Reg)
    requires DistinctPhis(phis) && k <= |phis|
    ensures (forall j :: 0 <= j < k && !phis[j].incoming.Undef? ==> phis[j].result != r) ==>
              Get(Parallel(phis, k, regs), r) == Get(regs, r)
    ensures forall j :: 0 <= j < k && !phis[j].incoming.Undef? ==>
              Get(Parallel(phis, k, regs), phis[j].result) == Val(phis[j].incoming, regs)
  {
    hide Val;
    if k > 0 {
      ParallelHolds(phis, k - 1, regs, r);
    }
  }

  lemma {:induction false} OneAfterTheOther(phis: seq<Phi>, n: nat, regs: Regs)
    requires DistinctPhis(phis) && n <= |phis| && NoLostCopy(phis, n)
    ensures Sequential(phis, n, regs) == Parallel(phis, n, regs)
  {
    if n > 0 {
      OneAfterTheOther(phis, n - 1, regs);
      var k := n - 1;
      if phis[k].incoming.Value? {
        var r := phis[k].incoming.r;
        ParallelHolds(phis, k, regs, r);
        if j :| 0 <= j < k && !phis[j].incoming.Undef? && phis[j].result == r {
          assert !Clobbers(phis, j, k);
        }
      }
    }
  }

  lemma {:induction false} FirstLostCopy(phis: seq<Phi>, n: nat) returns (j: nat, k: nat)
    requires n <= |phis| && !NoLostCopy(phis, n)
    ensures j < k < n && Clobbers(phis, j, k) && NoLostCopy(phis, k)
    decreases n
  {
    if NoLostCopy(phis, n - 1) {
      k := n - 1;
      var i, m :| 0 <= i < m < n && Clobbers(phis, i, m);
      j := i;
    } else {
      j, k := FirstLostCopy(phis, n - 1);
    }
  }

  lemma {:induction false} LaterCopiesKeep(phis: seq<Phi>, k: nat, n: nat, regs: Regs)
    requires DistinctPhis(phis) && k < n <= |phis|
    ensures Get(Sequential(phis, n, regs), phis[k].result) == Get(Sequential(phis, k + 1, regs), phis[k].result)
    decreases n
  {
    hide Val;
    if k + 1 < n {
      LaterCopiesKeep(phis, k, n - 1, regs);
    }
  }

  // Every PHI has its incoming value, every other register what it had.
  ghost predicate Received(phis: seq<Phi>, before: Regs, after: Regs) {
    && (forall k :: 0 <= k < |phis| && !phis[k].incoming.Undef? ==> Get(after, phis[k].result) == Val(phis[k].incoming, before))
    && (forall r :: (forall j :: 0 <= j < |phis| && !phis[j].incoming.Undef? ==> phis[j].result != r) ==>
                      Get(after, r) == Get(before, r))
  }

  lemma {:induction false} ParallelIsReceived(phis: seq<Phi>, regs: Regs)
    requires DistinctPhis(phis)
    ensures Received(phis, regs, Parallel(phis, |phis|, regs))
  {
    hide Parallel;
    ParallelHolds(phis, |phis|, regs, 0);
    forall r | forall j :: 0 <= j < |phis| && !phis[j].incoming.Undef? ==> phis[j].result != r
      ensures Get(Parallel(phis, |phis|, regs), r) == Get(regs, r)
    {
      ParallelHolds(phis, |phis|, regs, r);
    }
  }

  // A lost copy shows: some PHI comes out wrong.
  lemma {:induction false} LostCopyShows(phis: seq<Phi>) returns (regs: Regs)
    requires DistinctPhis(phis) && !NoLostCopy(phis, |phis|)
    ensures !Received(phis, regs, Sequential(phis, |phis|, regs))
  {
    var j, k := FirstLostCopy(phis, |phis|);
    var r := phis[j].result;
    match phis[j].incoming {
      case Const(n) => regs := map[r := n + 1];
      case Value(q) => regs := map[r := 1, q := 0];
      case Undef => assert false;
    }
    assert Val(phis[j].incoming, regs) != Get(regs, r);
    OneAfterTheOther(phis, k, regs);
    ParallelHolds(phis, k, regs, r);
    LaterCopiesKeep(phis, k, |phis|, regs);
  }

  lemma {:induction false} KeptCopyShows(phis: seq<Phi>, regs: Regs)
    requires DistinctPhis(phis) && NoLostCopy(phis, |phis|)
    ensures Sequential(phis, |phis|, regs) == Parallel(phis, |phis|, regs)
    ensures Received(phis, regs, Sequential(phis, |phis|, regs))
  {
    hide Received;
    OneAfterTheOther(phis, |phis|, regs);
    ParallelIsReceived(phis, regs);
  }

  // The copies give every PHI its incoming value, from every state, exactly
  // when no copy overwrites a PHI that a later one still reads.
  lemma {:induction false} CopiesAreParallelIff(phis: seq<Phi>)
    requires DistinctPhis(phis)
    ensures (forall regs :: Received(phis, regs, Sequential(phis, |phis|, regs))) <==> NoLostCopy(phis, |phis|)
    ensures (forall regs :: Sequential(phis, |phis|, regs) == Parallel(phis, |phis|, regs)) <==> NoLostCopy(phis, |phis|)
  {
    hide Received, Sequential, Parallel, NoLostCopy;
    if NoLostCopy(phis, |phis|) {
      forall regs
        ensures Sequential(phis, |phis|, regs) == Parallel(phis, |phis|, regs)
        ensures Received(phis, regs, Sequential(phis, |phis|, regs))
      {
        KeptCopyShows(phis, regs);
      }
    } else {
      var regs := LostCopyShows(phis);
      ParallelIsReceived(phis, regs);
    }
  }

  // ---- Running the emitted code ----

  // The code has `part` at position `at`.
  ghost predicate Has(code: seq<Instr>, at: nat, part: seq<Instr>) {
    at + |part| <= |code| && code[at..at + |part|] == part
  }

  lemma {:induction false} HasParts(code: seq<Instr>, at: nat, a: seq<Instr>, b: seq<Instr>)
    requires Has(code, at, a + b)
    ensures Has(code, at, a) && Has(code, at + |a|, b)
  {
    var w := code[at..at + |a| + |b|];
    assert code[at..at + |a|] == w[..|a|] == a;
    assert code[at + |a|..at + |a| + |b|] == w[|a|..] == b;
  }

  lemma {:induction false} HasOne(code: seq<Instr>, at: nat, i: Instr)
    requires Has(code, at, [i])
    ensures at < |code| && code[at] == i
  {
    assert code[at..at + 1][0] == i;
  }

  // The label is marked once.
  ghost predicate MarkedAt(code: seq<Instr>, l: Label, p: nat) {
    p < |code| && code[p] == Mark(l) && forall i :: 0 <= i < |code| && code[i] == Mark(l) ==> i == p
  }

  lemma {:induction false} FoundFrom(code: seq<Instr>, l: Label, p: nat, i: nat)
    requires MarkedAt(code, l, p) && i <= p
    ensures FindFrom(code, l, i) == Some(p)
    decreases p - i
  {
    if i < p {
      FoundFrom(code, l, p, i + 1);
    }
  }

  lemma {:induction false} GotoLeads(code: seq<Instr>, at: nat, l: Label, p: nat, stack: seq<int>, regs: Regs)
    requires Has(code, at, [Goto(l)]) && MarkedAt(code, l, p)
    ensures Leads(code, State(at, stack, regs), State(p, stack, regs))
  {
    HasOne(code, at, Goto(l));
    FoundFrom(code, l, p, 0);
    LeadsStep(code, State(at, stack, regs), State(p, stack, regs));
  }

  lemma {:induction false} CopiesLead(code: seq<Instr>, at: nat, phis: seq<Phi>, k: nat, stack: seq<int>, regs: Regs)
    requires k <= |phis| && Has(code, at, Copies(phis[k..]))
    ensures Leads(code, State(at, stack, Sequential(phis, k, regs)),
                  State(at + |Copies(phis[k..])|, stack, Sequential(phis, |phis|, regs)))
    decreases |phis| - k
  {
    hide Leads, Val, Has;
    var here := State(at, stack, Sequential(phis, k, regs));
    if k == |phis| {
      LeadsNow(code, here);
    } else {
      assert phis[k..][1..] == phis[k + 1..];
      var phi := phis[k];
      var head := if phi.incoming.Undef? then [] else [Load(phi.incoming), Store(phi.result)];
      assert Copies(phis[k..]) == head + Copies(phis[k + 1..]);
      HasParts(code, at, head, Copies(phis[k + 1..]));
      CopiesLead(code, at + |head|, phis, k + 1, stack, regs);
      var next := State(at + |head|, stack, Sequential(phis, k + 1, regs));
      if phi.incoming.Undef? {
        LeadsNow(code, here);
      } else {
        CopyLeads(code, at, phi, stack, Sequential(phis, k, regs));
      }
      LeadsOn(code, here, next, State(at + |Copies(phis[k..])|, stack, Sequential(phis, |phis|, regs)));
    }
  }

  lemma {:induction false} CopyLeads(code: seq<Instr>, at: nat, phi: Phi, stack: seq<int>, regs: Regs)
    requires Has(code, at, [Load(phi.incoming), Store(phi.result)])
    ensures Leads(code, State(at, stack, regs), State(at + 2, stack, regs[phi.result := Val(phi.incoming, regs)]))
  {
    HasParts(code, at, [Load(phi.incoming)], [Store(phi.result)]);
    HasOne(code, at, Load(phi.incoming));
    HasOne(code, at + 1, Store(phi.result));
    var v := Val(phi.incoming, regs);
    var s, t := State(at, stack, regs), State(at + 1, [v] + stack, regs);
    var u := State(at + 2, stack, regs[phi.result := v]);
    assert ([v] + stack)[1..] == stack;
    LeadsStep(code, s, t);
    LeadsStep(code, t, u);
    LeadsOn(code, s, t, u);
  }

  lemma {:induction false} OneTargetLeads(code: seq<Instr>, at: nat, dest: nat, phis: seq<Phi>, p: nat, stack: seq<int>, regs: Regs)
    requires Has(code, at, OneTarget(dest, phis)) && MarkedAt(code, Block(dest), p)
    ensures Leads(code, State(at, stack, regs), State(p, stack, Sequential(phis, |phis|, regs)))
  {
    hide Leads, Has, MarkedAt;
    HasParts(code, at, Copies(phis), [Goto(Block(dest))]);
    assert phis[0..] == phis;
    CopiesLead(code, at, phis, 0, stack, regs);
    var after := Sequential(phis, |phis|, regs);
    GotoLeads(code, at + |Copies(phis)|, Block(dest), p, stack, after);
    LeadsOn(code, State(at, stack, regs), State(at + |Copies(phis)|, stack, after), State(p, stack, after));
  }

  // Both forms of a conditional branch go the same way: to the label when the
  // condition holds, on otherwise.
  lemma {:induction false} ConditionalLeads(code: seq<Instr>, at: nat, rewrite: bool, c: Cond, l: Label, id: nat, p: nat,
                         v: int, stack: seq<int>, regs: Regs)
    requires Has(code, at, Conditional(rewrite, c, l, id)) && MarkedAt(code, l, p)
    requires rewrite ==> MarkedAt(code, BranchLabel(id), at + 2)
    ensures Leads(code, State(at, [v] + stack, regs),
                  State(if Holds(c, v) then p else at + |Conditional(rewrite, c, l, id)|, stack, regs))
  {
    var s := State(at, [v] + stack, regs);
    assert ([v] + stack)[1..] == stack;
    FoundFrom(code, l, p, 0);
    if !rewrite {
      HasOne(code, at, Branch(c, l));
      LeadsStep(code, s, State(if Holds(c, v) then p else at + 1, stack, regs));
    } else {
      RewrittenLeads(code, at, c, l, id, p, v, stack, regs);
    }
  }

  lemma {:induction false} RewrittenLeads(code: seq<Instr>, at: nat, c: Cond, l: Label, id: nat, p: nat, v: int, stack: seq<int>, regs: Regs)
    requires Has(code, at, [Branch(Inverse(c), BranchLabel(id)), Goto(l), Mark(BranchLabel(id))])
    requires MarkedAt(code, l, p) && MarkedAt(code, BranchLabel(id), at + 2)
    ensures Leads(code, State(at, [v] + stack, regs), State(if Holds(c, v) then p else at + 3, stack, regs))
  {
    hide Leads;
    HasParts(code, at, [Branch(Inverse(c), BranchLabel(id))], [Goto(l), Mark(BranchLabel(id))]);
    HasParts(code, at + 1, [Goto(l)], [Mark(BranchLabel(id))]);
    HasOne(code, at, Branch(Inverse(c), BranchLabel(id)));
    FoundFrom(code, BranchLabel(id), at + 2, 0);
    assert Holds(Inverse(c), v) <==> !Holds(c, v);
    var s := State(at, [v] + stack, regs);
    assert ([v] + stack)[1..] == stack;
    if Holds(c, v) {
      LeadsStep(code, s, State(at + 1, stack, regs));
      GotoLeads(code, at + 1, l, p, stack, regs);
      LeadsOn(code, s, State(at + 1, stack, regs), State(p, stack, regs));
    } else {
      LeadsStep(code, s, State(at + 2, stack, regs));
      LeadsStep(code, State(at + 2, stack, regs), State(at + 3, stack, regs));
      LeadsOn(code, s, State(at + 2, stack, regs), State(at + 3, stack, regs));
    }
  }

  lemma {:induction false} TrampolineLeads(code: seq<Instr>, at: nat, t: nat, tPhis: seq<Phi>, uid: nat, p: nat, stack: seq<int>, regs: Regs)
    requires tPhis != [] && Has(code, at, Trampoline(t, tPhis, uid)) && MarkedAt(code, Block(t), p)
    ensures Leads(code, State(at, stack, regs), State(p, stack, Sequential(tPhis, |tPhis|, regs)))
  {
    hide Leads, OneTarget, MarkedAt;
    HasParts(code, at, [Mark(EdgeLabel(t, uid))], OneTarget(t, tPhis));
    HasOne(code, at, Mark(EdgeLabel(t, uid)));
    LeadsStep(code, State(at, stack, regs), State(at + 1, stack, regs));
    OneTargetLeads(code, at + 1, t, tPhis, p, stack, regs);
    LeadsOn(code, State(at, stack, regs), State(at + 1, stack, regs), State(p, stack, Sequential(tPhis, |tPhis|, regs)));
  }

  // A two-way branch: from the value on the stack to the right block, with
  // the copies of that edge done and nothing else changed.
  lemma {:induction false} TwoTargetsLead(code: seq<Instr>, at: nat, t: nat, tPhis: seq<Phi>, f: nat, fPhis: seq<Phi>, uid: nat,
                       rewrite: bool, id: nat, pt: nat, pf: nat, v: int, stack: seq<int>, regs: Regs)
    requires Has(code, at, TwoTargets(t, tPhis, f, fPhis, uid, rewrite, id))
    requires MarkedAt(code, Block(t), pt) && MarkedAt(code, Block(f), pf)
    requires InternalMarked(code, at, t, tPhis, f, fPhis, uid, rewrite, id)
    requires t == f ==> tPhis == fPhis
    ensures Leads(code, State(at, [v] + stack, regs),
                  if v != 0 then State(pt, stack, Sequential(tPhis, |tPhis|, regs))
                  else State(pf, stack, Sequential(fPhis, |fPhis|, regs)))
  {
    hide Leads, Has, OneTarget, Trampoline, Conditional, MarkedAt, Sequential;
    if t == f {
      MarkedOnce(code, Block(t), pt, pf);
      SameTarget(code, at, t, tPhis, pt, v, stack, regs);
    } else {
      var l := TrueLabel(t, tPhis, uid);
      var cond, onFalse := Conditional(rewrite, IfNe, l, id), OneTarget(f, fPhis);
      HasParts(code, at, cond + onFalse, Trampoline(t, tPhis, uid));
      HasParts(code, at, cond, onFalse);
      var p := if tPhis != [] then at + |cond| + |onFalse| else pt;
      ConditionalLeads(code, at, rewrite, IfNe, l, id, p, v, stack, regs);
      if v == 0 {
        OneTargetLeads(code, at + |cond|, f, fPhis, pf, stack, regs);
        LeadsOn(code, State(at, [v] + stack, regs), State(at + |cond|, stack, regs),
                State(pf, stack, Sequential(fPhis, |fPhis|, regs)));
      } else if tPhis != [] {
        TrampolineLeads(code, p, t, tPhis, uid, pt, stack, regs);
        LeadsOn(code, State(at, [v] + stack, regs), State(p, stack, regs),
                State(pt, stack, Sequential(tPhis, |tPhis|, regs)));
      } else {
        NothingCopied(regs);
      }
    }
  }

  lemma {:induction false} NothingCopied(regs: Regs)
    ensures Sequential([], 0, regs) == regs
  {
  }

  lemma {:induction false} SameTarget(code: seq<Instr>, at: nat, t: nat, phis: seq<Phi>, p: nat, v: int, stack: seq<int>, regs: Regs)
    requires Has(code, at, [Pop] + OneTarget(t, phis)) && MarkedAt(code, Block(t), p)
    ensures Leads(code, State(at, [v] + stack, regs), State(p, stack, Sequential(phis, |phis|, regs)))
  {
    hide Leads, Has, OneTarget, MarkedAt, Sequential;
    HasParts(code, at, [Pop], OneTarget(t, phis));
    PopLeads(code, at, v, stack, regs);
    OneTargetLeads(code, at + 1, t, phis, p, stack, regs);
    LeadsOn(code, State(at, [v] + stack, regs), State(at + 1, stack, regs), State(p, stack, Sequential(phis, |phis|, regs)));
  }

  // The labels the branch brings with it are marked nowhere else.
  ghost predicate InternalMarked(code: seq<Instr>, at: nat, t: nat, tPhis: seq<Phi>, f: nat, fPhis: seq<Phi>, uid: nat,
                                 rewrite: bool, id: nat)
  {
    var l := TrueLabel(t, tPhis, uid);
    t != f ==>
      && (rewrite ==> MarkedAt(code, BranchLabel(id), at + 2))
      && (tPhis != [] ==> MarkedAt(code, l, at + |Conditional(rewrite, IfNe, l, id)| + |OneTarget(f, fPhis)|))
  }

  lemma {:induction false} MarkedOnce(code: seq<Instr>, l: Label, p: nat, q: nat)
    requires MarkedAt(code, l, p) && MarkedAt(code, l, q)
    ensures p == q
  {
  }

  lemma {:induction false} PopLeads(code: seq<Instr>, at: nat, v: int, stack: seq<int>, regs: Regs)
    requires Has(code, at, [Pop])
    ensures Leads(code, State(at, [v] + stack, regs), State(at + 1, stack, regs))
  {
    HasOne(code, at, Pop);
    assert ([v] + stack)[1..] == stack;
    LeadsStep(code, State(at, [v] + stack, regs), State(at + 1, stack, regs));
  }

  // The form without a false block copies first and branches then. Nothing in
  // the backend asks for it: a conditional branch always has two successors.
  lemma {:induction false} NoElseLeads(code: seq<Instr>, at: nat, dest: nat, phis: seq<Phi>, rewrite: bool, id: nat, p: nat,
                                       v: int, stack: seq<int>, regs: Regs)
    requires Has(code, at, NoElse(dest, phis, rewrite, id)) && MarkedAt(code, Block(dest), p)
    requires rewrite ==> MarkedAt(code, BranchLabel(id), at + |Copies(phis)| + 2)
    ensures Leads(code, State(at, [v] + stack, regs),
                  State(if v != 0 then p else at + |NoElse(dest, phis, rewrite, id)|, stack, Sequential(phis, |phis|, regs)))
  {
    hide Leads, Has, MarkedAt, Sequential, Conditional;
    HasParts(code, at, Copies(phis), Conditional(rewrite, IfNe, Block(dest), id));
    assert phis[0..] == phis;
    CopiesLead(code, at, phis, 0, [v] + stack, regs);
    NothingYet(phis, regs);
    var branch, after := at + |Copies(phis)|, Sequential(phis, |phis|, regs);
    ConditionalLeads(code, branch, rewrite, IfNe, Block(dest), id, p, v, stack, after);
    LeadsOn(code, State(at, [v] + stack, regs), State(branch, [v] + stack, after),
            State(if v != 0 then p else at + |NoElse(dest, phis, rewrite, id)|, stack, after));
  }

  lemma {:induction false} NothingYet(phis: seq<Phi>, regs: Regs)
    ensures Sequential(phis, 0, regs) == regs
  {
  }

  function OtherWay(v: int): int { if v != 0 then 0 else 1 }

  // The end of a block, whatever edge it takes, leads straight to the label
  // of the right block with the copies of that edge done one after the other.
  lemma {:induction false} EndLeads(code: seq<Instr>, at: nat, end: End, uid: nat, rewrite: bool, id: nat, v: int,
                                    target: nat, other: nat, stack: seq<int>, regs: Regs)
    requires Has(code, at, EndCode(end, uid, rewrite, id)) && InternalMarksUnique(code) && OneListEach(end)
    requires MarkedAt(code, Block(Taken(end, v).dest), target) && MarkedAt(code, Block(Taken(end, OtherWay(v)).dest), other)
    ensures var phis := Taken(end, v).phis;
            Leads(code, AtEnd(end, at, v, stack, regs),
                  State(target, stack, Sequential(phis, |phis|, regs)))
  {
    hide Leads, Has, MarkedAt, Sequential, TwoTargets, OneTarget, InternalMarked, InternalMarksUnique;
    match end {
      case Always(dest, phis) =>
        OneTargetLeads(code, at, dest, phis, target, stack, regs);
      case Either(t, tPhis, f, fPhis) =>
        OwnMarks(code, at, t, tPhis, f, fPhis, uid, rewrite, id);
        var pt, pf := if v != 0 then target else other, if v != 0 then other else target;
        TwoTargetsLead(code, at, t, tPhis, f, fPhis, uid, rewrite, id, pt, pf, v, stack, regs);
    }
  }

  // What the edge taken means: the first block entered is its destination,
  // with every PHI holding the value it had coming in and nothing else changed.
  ghost predicate EdgeKept(code: seq<Instr>, at: nat, end: End, v: int, target: nat, stack: seq<int>, regs: Regs) {
    exists after :: Leads(code, AtEnd(end, at, v, stack, regs), State(target, stack, after)) && Received(Taken(end, v).phis, regs, after)
  }

  lemma {:induction false} EdgeKeptIfReceived(code: seq<Instr>, at: nat, end: End, uid: nat, rewrite: bool, id: nat,
                                              v: int, target: nat, other: nat, stack: seq<int>, regs: Regs)
    requires Has(code, at, EndCode(end, uid, rewrite, id)) && InternalMarksUnique(code) && OneListEach(end)
    requires MarkedAt(code, Block(Taken(end, v).dest), target) && MarkedAt(code, Block(Taken(end, OtherWay(v)).dest), other)
    ensures var phis := Taken(end, v).phis;
            EdgeKept(code, at, end, v, target, stack, regs) <==>
              Received(phis, regs, Sequential(phis, |phis|, regs))
  {
    hide Leads, Has, Sequential, EndCode, InternalMarksUnique, Received;
    EndLeads(code, at, end, uid, rewrite, id, v, target, other, stack, regs);
    var phis := Taken(end, v).phis;
    var done := State(target, stack, Sequential(phis, |phis|, regs));
    if EdgeKept(code, at, end, v, target, stack, regs) {
      var after :| Leads(code, AtEnd(end, at, v, stack, regs), State(target, stack, after)) && Received(phis, regs, after);
      EntersOnce(code, AtEnd(end, at, v, stack, regs), done, State(target, stack, after));
    }
  }

  // The meaning of an edge, with one successor or two: the emitted code keeps
  // it from all values exactly when the edge itself loses no copy.
  lemma {:induction false} EdgeKeepsMeaningIff(code: seq<Instr>, at: nat, end: End, uid: nat, rewrite: bool, id: nat,
                                               v: int, target: nat, other: nat)
    requires Has(code, at, EndCode(end, uid, rewrite, id)) && InternalMarksUnique(code) && OneListEach(end)
    requires MarkedAt(code, Block(Taken(end, v).dest), target) && MarkedAt(code, Block(Taken(end, OtherWay(v)).dest), other)
    requires DistinctPhis(Taken(end, v).phis)
    ensures var phis := Taken(end, v).phis;
            (forall stack, regs :: EdgeKept(code, at, end, v, target, stack, regs)) <==>
              NoLostCopy(phis, |phis|)
  {
    hide *;
    var phis := Taken(end, v).phis;
    forall stack, regs
      ensures EdgeKept(code, at, end, v, target, stack, regs) <==> Received(phis, regs, Sequential(phis, |phis|, regs))
    {
      EdgeKeptIfReceived(code, at, end, uid, rewrite, id, v, target, other, stack, regs);
    }
    if NoLostCopy(phis, |phis|) {
      forall regs ensures Received(phis, regs, Sequential(phis, |phis|, regs)) {
        KeptCopyShows(phis, regs);
      }
    } else {
      var regs := LostCopyShows(phis);
      assert !EdgeKept(code, at, end, v, target, [], regs);
    }
  }

  // ---- Labels of the whole output ----

  // No trampoline or rewritten branch shares its label with another.
  ghost predicate InternalMarksUnique(code: seq<Instr>) {
    forall i, j :: 0 <= i < j < |code| && code[i].Mark? && code[i] == code[j] ==> code[i].l.Block?
  }

  lemma {:induction false} OwnMarks(code: seq<Instr>, at: nat, t: nat, tPhis: seq<Phi>, f: nat, fPhis: seq<Phi>, uid: nat,
                                    rewrite: bool, id: nat)
    requires Has(code, at, TwoTargets(t, tPhis, f, fPhis, uid, rewrite, id)) && InternalMarksUnique(code)
    ensures InternalMarked(code, at, t, tPhis, f, fPhis, uid, rewrite, id)
  {
    hide Has, OneTarget;
    if t != f {
      var l := TrueLabel(t, tPhis, uid);
      var cond, onFalse, tail := Conditional(rewrite, IfNe, l, id), OneTarget(f, fPhis), Trampoline(t, tPhis, uid);
      HasParts(code, at, cond + onFalse, tail);
      HasParts(code, at, cond, onFalse);
      if rewrite {
        HasParts(code, at, [Branch(Inverse(IfNe), BranchLabel(id)), Goto(l)], [Mark(BranchLabel(id))]);
        HasOne(code, at + 2, Mark(BranchLabel(id)));
      }
      if tPhis != [] {
        HasParts(code, at + |cond| + |onFalse|, [Mark(EdgeLabel(t, uid))], OneTarget(t, tPhis));
        HasOne(code, at + |cond| + |onFalse|, Mark(EdgeLabel(t, uid)));
      }
    }
  }

  // ---- The writer ----

  class JVMWriter {
    const rewriteBranches: bool
    var outstream: seq<Instr>
    var uid: nat
    var branchId: nat
    var lastLabel: Option<Label>

    // The counters are ahead of all labels printed, so new ones are new.
    ghost predicate Valid()
      reads this
    {
      && MarksBelow(outstream, uid, branchId) && InternalMarksUnique(outstream)
      && (lastLabel.Some? && lastLabel.value.EdgeLabel? ==> lastLabel.value.uid <= uid)
    }

    constructor (rewriteBranches: bool)
      ensures Valid() && outstream == [] && this.rewriteBranches == rewriteBranches
    {
      this.rewriteBranches := rewriteBranches;
      outstream, uid, branchId, lastLabel := [], 0, 700, None;
    }

    // A label is not printed again when it was the last one printed.
    method PrintLabel(l: Label)
      modifies this`outstream, this`lastLabel
      ensures outstream == old(outstream) + (if old(lastLabel) == Some(l) then [] else [Mark(l)])
      ensures lastLabel == Some(l)
    {
      if Some(l) != lastLabel {
        outstream := outstream + [Mark(l)];
        lastLabel := Some(l);
      }
    }

    method PrintPHICopy(phis: seq<Phi>)
      requires Valid()
      modifies this`outstream
      ensures Valid() && outstream == old(outstream) + Copies(phis)
    {
      hide MarksBelow, InternalMarksUnique;
      var i := 0;
      while i < |phis|
        invariant i <= |phis| && outstream + Copies(phis[i..]) == old(outstream) + Copies(phis)
        invariant Valid()
      {
        assert phis[i..][1..] == phis[i + 1..];
        var phi := phis[i];
        if !phi.incoming.Undef? {
          ghost var before := outstream;
          NoMark(outstream, [Load(phi.incoming), Store(phi.result)], uid, branchId);
          outstream := outstream + [Load(phi.incoming), Store(phi.result)];
          assert outstream + Copies(phis[i + 1..]) == before + Copies(phis[i..]);
        } else {
          assert Copies(phis[i..]) == Copies(phis[i + 1..]);
        }
        i := i + 1;
      }
    }

    method PrintConditional(c: Cond, l: Label)
      requires Valid()
      modifies this`outstream, this`branchId
      ensures Valid() && outstream == old(outstream) + Conditional(rewriteBranches, c, l, old(branchId))
      ensures branchId == old(branchId) + if rewriteBranches then 1 else 0
    {
      hide MarksBelow, InternalMarksUnique;
      if !rewriteBranches {
        NoMark(outstream, [Branch(c, l)], uid, branchId);
        outstream := outstream + [Branch(c, l)];
      } else {
        RewriteBranch(c, l);
      }
    }

    method RewriteBranch(c: Cond, l: Label)
      requires Valid()
      modifies this`outstream, this`branchId
      ensures Valid() && outstream == old(outstream) + Conditional(true, c, l, old(branchId)) && branchId == old(branchId) + 1
    {
      hide MarksBelow, InternalMarksUnique;
      var l' := BranchLabel(branchId);
      NoMark(outstream, [Branch(Inverse(c), l'), Goto(l)], uid, branchId);
      NewMark(outstream + [Branch(Inverse(c), l'), Goto(l)], l', uid, branchId, uid, branchId + 1);
      outstream := outstream + [Branch(Inverse(c), l'), Goto(l)] + [Mark(l')];
      branchId := branchId + 1;
    }

    method PrintBranchTo(dest: nat, phis: seq<Phi>)
      requires Valid()
      modifies this`outstream
      ensures Valid() && outstream == old(outstream) + OneTarget(dest, phis)
    {
      hide MarksBelow, InternalMarksUnique, Copies;
      PrintPHICopy(phis);
      NoMark(outstream, [Goto(Block(dest))], uid, branchId);
      outstream := outstream + [Goto(Block(dest))];
    }

    method PrintBranchNoElse(dest: nat, phis: seq<Phi>)
      requires Valid()
      modifies this`outstream, this`branchId
      ensures Valid() && outstream == old(outstream) + NoElse(dest, phis, rewriteBranches, old(branchId))
      ensures branchId == old(branchId) + if rewriteBranches then 1 else 0
    {
      hide MarksBelow, InternalMarksUnique, Copies, Conditional;
      PrintPHICopy(phis);
      PrintConditional(IfNe, Block(dest));
    }

    method PrintBranchOn(t: nat, tPhis: seq<Phi>, f: nat, fPhis: seq<Phi>)
      requires Valid()
      modifies this`outstream, this`branchId, this`uid, this`lastLabel
      ensures Valid()
      ensures outstream == old(outstream) + TwoTargets(t, tPhis, f, fPhis, old(uid) + 1, rewriteBranches, old(branchId))
      ensures uid == old(uid) + if t != f && tPhis != [] then 1 else 0
      ensures branchId == old(branchId) + if t != f && rewriteBranches then 1 else 0
    {
      hide MarksBelow, InternalMarksUnique, OneTarget, Conditional, Trampoline;
      ghost var start := outstream;
      if t == f {
        NoMark(outstream, [Pop], uid, branchId);
        outstream := outstream + [Pop];
        PrintBranchTo(t, tPhis);
        Joined(start, [Pop], OneTarget(t, tPhis), []);
      } else {
        var l := Block(t);
        if tPhis != [] {
          l := EdgeLabel(t, uid + 1);
        }
        PrintConditional(IfNe, l);
        PrintBranchTo(f, fPhis);
        if tPhis != [] {
          PrintTrampoline(t, tPhis);
        }
        NoTrampoline(t, tPhis, old(uid) + 1);
        Joined(start, Conditional(rewriteBranches, IfNe, l, old(branchId)), OneTarget(f, fPhis), Trampoline(t, tPhis, old(uid) + 1));
      }
    }

    method PrintTrampoline(t: nat, tPhis: seq<Phi>)
      requires Valid() && tPhis != []
      modifies this`outstream, this`uid, this`lastLabel
      ensures Valid() && outstream == old(outstream) + Trampoline(t, tPhis, old(uid) + 1) && uid == old(uid) + 1
    {
      hide MarksBelow, InternalMarksUnique, OneTarget;
      ghost var start := outstream;
      var l := EdgeLabel(t, uid + 1);
      NewMark(outstream, l, uid, branchId, uid + 1, branchId);
      uid := uid + 1;
      PrintLabel(l);
      PrintBranchTo(t, tPhis);
      Joined(start, [Mark(l)], OneTarget(t, tPhis), []);
    }
  }

  lemma {:induction false} NoTrampoline(t: nat, tPhis: seq<Phi>, uid: nat)
    ensures tPhis == [] ==> Trampoline(t, tPhis, uid) == []
  {
  }

  lemma {:induction false} Joined(start: seq<Instr>, a: seq<Instr>, b: seq<Instr>, c: seq<Instr>)
    ensures start + a + b + c == start + (a + b + c)
    ensures start + a + b == start + (a + b) && start + (a + b) + [] == start + (a + b) && a + b + [] == a + b
  {
  }

  ghost predicate MarksBelow(code: seq<Instr>, uid: nat, branchId: nat) {
    forall i :: 0 <= i < |code| && code[i].Mark? ==>
      match code[i].l
      case Block(_) => true
      case EdgeLabel(_, u) => u <= uid
      case BranchLabel(n) => n < branchId
  }

  lemma {:induction false} NoMark(code: seq<Instr>, more: seq<Instr>, uid: nat, branchId: nat)
    requires MarksBelow(code, uid, branchId) && InternalMarksUnique(code)
    requires forall i :: 0 <= i < |more| ==> !more[i].Mark?
    ensures MarksBelow(code + more, uid, branchId) && InternalMarksUnique(code + more)
  {
    assert forall i :: |code| <= i < |code + more| ==> (code + more)[i] == more[i - |code|];
  }

  lemma {:induction false} NewMark(code: seq<Instr>, l: Label, uid: nat, branchId: nat, uid': nat, branchId': nat)
    requires MarksBelow(code, uid, branchId) && InternalMarksUnique(code) && uid <= uid' && branchId <= branchId'
    requires match l
             case Block(_) => true
             case EdgeLabel(_, u) => uid < u <= uid'
             case BranchLabel(n) => branchId <= n < branchId'
    ensures MarksBelow(code + [Mark(l)], uid', branchId') && InternalMarksUnique(code + [Mark(l)])
  {
  }
}
