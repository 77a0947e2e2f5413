// What a run of a body executes is marked live.
module Reachability {
  import opened Bytes
  import opened Opcodes
  import opened Instructions
  import opened Passes
  import opened Encoding
  import opened Simulation
  import opened Liveness

  // br goes to its target and nowhere else.
  ghost predicate TakesBr<S(!new)>(sem: (Action<()>, S) -> Outcome<S>) {
    forall action: Action<()>, s :: action.op == BR ==> sem(action, s).Taken? || sem(action, s).Halt?
  }

  // A run that enters the list at `start`: at the first instruction, or where
  // control enters an exception block.
  function RunFrom<S>(code: seq<Instr>, frame: Frame, sem: (Action<()>, S) -> Outcome<S>, start: nat, s: S, n: nat): Config<S> {
    if n == 0 then Running(start, s) else SourceStep(code, frame, sem, RunFrom(code, frame, sem, start, s, n - 1))
  }

  predicate Entry(code: seq<Instr>, start: nat) {
    start < |code| && (start == 0 || OpensSeh(code[start]))
  }

  // The names an instruction can jump to are those it records.
  lemma JumpsAreNamed<S>(i: Instr, frame: Frame, outcome: Outcome<S>)
    requires SourceAction(i, frame).Some? && JumpTarget(SourceAction(i, frame).value, outcome).Some?
    ensures JumpTarget(SourceAction(i, frame).value, outcome).value in NamesOf(i)
  {
    BranchForms(i.op);
    GeneralKeepsArg(Canonical(i.op), SourceArg(i), frame);
    hide TableRow, Canonical, General;
  }

  lemma BranchForms(op: Opcode)
    ensures TableRow(op).form in {Rel1, Rel4} ==> IsBranch(op)
    ensures TableRow(op).form == SwitchTable <==> op == SWITCH
  {
  }

  lemma GeneralKeepsArg(op: Opcode, arg: Arg<string>, frame: Frame)
    ensures var action := General(op, arg, frame);
            action.Some? && (action.value.arg.Jump? || action.value.arg.Table?) ==> action.value.arg == arg
  {
  }

  lemma BrIsBr(i: Instr, frame: Frame)
    requires i.op == BR
    ensures SourceAction(i, frame) == Some(Action(BR, Jump(Name(i))))
  {
  }

  // From a live instruction control passes over labels and comments to a live one.
  lemma {:induction false} FirstRealIsLive(code: seq<Instr>, live: set<nat>, k: nat)
    requires Closed(code, live) && k in live
    ensures FirstReal(code, k) == |code| || FirstReal(code, k) in live
    decreases |code| - k
  {
    hide TableRow, NamesOf;
    if IsPseudo(code[k].op) && k + 1 < |code| {
      PseudoIsNotBr(code[k].op);
      FirstRealIsLive(code, live, k + 1);
    }
  }

  lemma PseudoIsNotBr(op: Opcode)
    ensures IsPseudo(op) ==> op != BR
  {
  }

  lemma StepStaysLive<S(!new)>(code: seq<Instr>, frame: Frame, sem: (Action<()>, S) -> Outcome<S>, live: set<nat>, c: Config<S>)
    requires Closed(code, live) && TakesBr(sem)
    requires c.Running? && (c.at in live || c.at == |code|)
    ensures var next := SourceStep(code, frame, sem, c);
            next.Running? ==> FirstReal(code, c.at) in live && (next.at in live || next.at == |code|)
  {
    hide TableRow, SourceAction, NamesOf;
    if 0 <= c.at < |code| {
      FirstRealIsLive(code, live, c.at);
      var j := FirstReal(code, c.at);
      if j < |code| && SourceAction(code[j], frame).Some? {
        var action := SourceAction(code[j], frame).value;
        var outcome := sem(Blank(action), c.s);
        if code[j].op == BR { BrIsBr(code[j], frame); }
        match JumpTarget(action, outcome)
        case None =>
        case Some(name) =>
          JumpsAreNamed(code[j], frame, outcome);
          if name in LabelsOf(code) {
            assert Targets(code, j, LabelsOf(code)[name]);
          }
      }
    }
  }

  // Whatever the instructions do to the data, and wherever control enters, a
  // run executes only instructions that are marked.
  lemma {:induction false} RunsStayLive<S(!new)>(
      code: seq<Instr>, frame: Frame, sem: (Action<()>, S) -> Outcome<S>, live: set<nat>, start: nat, s: S, n: nat)
    requires IsLeastClosed(code, live) && TakesBr(sem) && Entry(code, start)
    ensures var c := RunFrom(code, frame, sem, start, s, n);
            c.Running? ==> 0 <= c.at <= |code|
                           && (FirstReal(code, c.at) < |code| ==> FirstReal(code, c.at) in live)
  {
    hide TableRow, SourceStep, Necessary, FirstReal;
    RunKeepsLive(code, frame, sem, live, start, s, n);
    var c := RunFrom(code, frame, sem, start, s, n);
    if c.Running? && c.at in live {
      FirstRealIsLive(code, live, c.at);
    }
  }

  lemma {:induction false} RunKeepsLive<S(!new)>(
      code: seq<Instr>, frame: Frame, sem: (Action<()>, S) -> Outcome<S>, live: set<nat>, start: nat, s: S, n: nat)
    requires Closed(code, live) && TakesBr(sem) && Entry(code, start)
    ensures var c := RunFrom(code, frame, sem, start, s, n); c.Running? ==> c.at in live || c.at == |code|
  {
    hide TableRow, SourceStep;
    if n > 0 {
      RunKeepsLive(code, frame, sem, live, start, s, n - 1);
      var c := RunFrom(code, frame, sem, start, s, n - 1);
      if c.Running? {
        StepStaysLive(code, frame, sem, live, c);
      } else {
        assert SourceStep(code, frame, sem, c).Stopped? by { StaysStopped(code, frame, sem, c); }
      }
    }
  }

  lemma StaysStopped<S>(code: seq<Instr>, frame: Frame, sem: (Action<()>, S) -> Outcome<S>, c: Config<S>)
    requires c.Stopped?
    ensures SourceStep(code, frame, sem, c).Stopped?
  {
    hide TableRow, SourceAction;
  }
}
