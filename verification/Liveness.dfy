// Which instructions can be reached: Method.CalculateLive.
module Liveness {
  import opened Bytes
  import opened Opcodes
  import opened Instructions

  // The labels the instruction can transfer control to.
  function NamesOf(i: Instr): set<string> {
    if IsBranch(i.op) then {Name(i)}
    else if i.op == SWITCH then set k | 0 <= k < |i.switches| :: i.switches[k]
    else {}
  }

  predicate OpensSeh(i: Instr) { i.op == SEH && i.sehBegin }

  ghost predicate Targets(code: seq<Instr>, i: nat, l: nat) {
    i < |code| && l < |code| && code[l].op == LABEL && Name(code[l]) in NamesOf(code[i])
  }

  // Holds the entry and every exception block, and whatever control can reach
  // from its members: the next instruction, except after br, and the targets.
  ghost predicate Closed(code: seq<Instr>, s: set<nat>) {
    && (forall i :: i in s ==> i < |code|)
    && (|code| > 0 ==> 0 in s)
    && (forall i: nat :: i < |code| && OpensSeh(code[i]) ==> i in s)
    && (forall i :: i in s && i + 1 < |code| && code[i].op != BR ==> i + 1 in s)
    && (forall i, l: nat :: i in s && Targets(code, i, l) ==> l in s)
  }

  ghost predicate IsLeastClosed(code: seq<Instr>, s: set<nat>) {
    Closed(code, s) && Necessary(code, s)
  }

  // Every closed set contains s.
  ghost predicate Necessary(code: seq<Instr>, s: set<nat>) {
    forall t :: Closed(code, t) ==> s <= t
  }

  // ---- What holds between two instructions of the scan ----

  // What has been marked and recorded is necessary; what the marked
  // instructions refer to is recorded; and they flow on, at the latest into
  // the instruction at `at`.
  ghost predicate ScanInv(code: seq<Instr>, marked: set<nat>, names: set<string>, at: nat, skipping: bool) {
    && (forall i :: i in marked ==> i < |code|)
    && Necessary(code, marked)
    && (forall t, l: nat :: Closed(code, t) && l < |code| && code[l].op == LABEL && Name(code[l]) in names ==> l in t)
    && (forall i :: i in marked ==> NamesOf(code[i]) <= names)
    && (forall i :: i in marked && i + 1 < |code| && code[i].op != BR ==> i + 1 in marked || (i + 1 == at && !skipping))
    && (at < |code| && !skipping ==> Necessary(code, marked + {at}))
  }

  lemma Mark(code: seq<Instr>, marked: set<nat>, names: set<string>, at: nat, skipping: bool, after: bool)
    requires ScanInv(code, marked, names, at, skipping) && at < |code|
    requires Necessary(code, marked + {at})
    requires after <==> code[at].op == BR
    ensures ScanInv(code, marked + {at}, names + NamesOf(code[at]), at + 1, after)
  {
    hide TableRow, NamesOf;
    var marked', names' := marked + {at}, names + NamesOf(code[at]);
    forall t, l: nat | Closed(code, t) && l < |code| && code[l].op == LABEL && Name(code[l]) in names'
      ensures l in t
    {
      assert at in t;
      if Name(code[l]) !in names { assert Targets(code, at, l); }
    }
  }

  lemma SkipOver(code: seq<Instr>, marked: set<nat>, names: set<string>, at: nat)
    requires ScanInv(code, marked, names, at, true)
    ensures ScanInv(code, marked, names, at + 1, true)
  {
    hide TableRow, NamesOf, Closed;
  }

  // The next pass starts at the top with the flag the last one left.
  lemma Restart(code: seq<Instr>, marked: set<nat>, names: set<string>, skipping: bool, next: bool)
    requires ScanInv(code, marked, names, |code|, skipping)
    ensures ScanInv(code, marked, names, 0, next)
  {
    hide TableRow, NamesOf;
  }

  lemma SehIsNecessary(code: seq<Instr>, marked: set<nat>, names: set<string>, at: nat, skipping: bool)
    requires ScanInv(code, marked, names, at, skipping) && at < |code| && OpensSeh(code[at])
    ensures Necessary(code, marked + {at}) && names + NamesOf(code[at]) == names && code[at].op != BR
  {
    SehNames(code[at]);
    hide TableRow, NamesOf;
  }

  lemma SehNames(i: Instr)
    ensures OpensSeh(i) || i.op == LABEL ==> NamesOf(i) == {} && i.op != BR
  {
  }

  lemma ReachedIsNecessary(code: seq<Instr>, marked: set<nat>, names: set<string>, at: nat, skipping: bool)
    requires ScanInv(code, marked, names, at, skipping) && at < |code|
    requires code[at].op == LABEL && Name(code[at]) in names
    ensures Necessary(code, marked + {at}) && names + NamesOf(code[at]) == names && code[at].op != BR
  {
    SehNames(code[at]);
    hide TableRow, NamesOf, Closed;
  }

  // The entry and the exception blocks met so far are marked.
  ghost predicate ScannedTo(code: seq<Instr>, marked: set<nat>, k: nat) {
    && (0 < k && 0 < |code| ==> 0 in marked)
    && (forall i: nat :: i < k && i < |code| && OpensSeh(code[i]) ==> i in marked)
  }

  // The recorded labels met so far in this pass are marked.
  ghost predicate CaughtTo(code: seq<Instr>, marked: set<nat>, names: set<string>, k: nat) {
    forall l: nat :: l < k && l < |code| && code[l].op == LABEL && Name(code[l]) in names ==> l in marked
  }

  lemma Finished(code: seq<Instr>, marked: set<nat>, names: set<string>, skipping: bool)
    requires ScanInv(code, marked, names, |code|, skipping)
    requires ScannedTo(code, marked, |code|) && CaughtTo(code, marked, names, |code|)
    ensures IsLeastClosed(code, marked)
  {
    hide TableRow, NamesOf;
  }

  function NamesIn(code: seq<Instr>): set<string> {
    (set i | 0 <= i < |code| :: Name(code[i]))
    + (set i, k | 0 <= i < |code| && 0 <= k < |code[i].switches| :: code[i].switches[k])
  }

  // ---- The scan itself ----

  // The flags of the list; everything else stays as it was.
  ghost predicate LiveIs(before: seq<Instr>, after: seq<Instr>, marked: set<nat>) {
    && |after| == |before|
    && forall i: nat :: i < |before| ==>
         after[i] == before[i].(live := after[i].live) && (after[i].live <==> before[i].live || i in marked)
  }

  // Records the targets of a live instruction; done drops when one is new.
  method Record(instruction: Instr, reached: set<string>, doneIn: bool) returns (names: set<string>, done: bool)
    ensures names == reached + NamesOf(instruction)
    ensures done == (doneIn && names == reached)
  {
    hide TableRow;
    names, done := reached, doneIn;
    if IsBranch(instruction.op) {
      if Name(instruction) !in names {
        done := false;
        names := names + {Name(instruction)};
      }
    } else if instruction.op == SWITCH {
      var k := 0;
      while k < |instruction.switches|
        invariant k <= |instruction.switches|
        invariant names == reached + set j | 0 <= j < k :: instruction.switches[j]
        invariant done == (doneIn && names == reached)
      {
        if instruction.switches[k] !in names {
          done := false;
          names := names + {instruction.switches[k]};
        }
        k := k + 1;
      }
    }
  }

  lemma NamesOfAreIn(code: seq<Instr>, i: nat)
    requires i < |code|
    ensures NamesOf(code[i]) <= NamesIn(code)
  {
    hide TableRow;
  }

  // Although skipping is never reset between passes, the flags end up on the
  // least closed set and nothing else.
  method CalculateLive(code: seq<Instr>) returns (result: seq<Instr>)
    ensures exists live :: IsLeastClosed(code, live) && LiveIs(code, result, live)
  {
    hide TableRow, NamesOf, Closed, ScanInv, Necessary, NamesIn;
    result := code;
    ghost var marked: set<nat> := {};
    var labelsReached: set<string> := {};
    var done := false;
    var skipping := false;
    ghost var first := true;
    Start(code);
    while !done
      invariant LiveIs(code, result, marked)
      invariant ScanInv(code, marked, labelsReached, |code|, skipping)
      invariant labelsReached <= NamesIn(code)
      invariant if first then !skipping else ScannedTo(code, marked, |code|)
      invariant done ==> !first && CaughtTo(code, marked, labelsReached, |code|)
      decreases NamesIn(code) - labelsReached, !done
    {
      done := true;
      ghost var start := labelsReached;
      Restart(code, marked, labelsReached, skipping, skipping);
      var i := 0;
      while i < |result|
        invariant i <= |result| && LiveIs(code, result, marked)
        invariant ScanInv(code, marked, labelsReached, i, skipping)
        invariant start <= labelsReached <= NamesIn(code)
        invariant done <==> labelsReached == start
        invariant first && i == 0 ==> !skipping
        invariant ScannedTo(code, marked, if first then i else |code|)
        invariant CaughtTo(code, marked, start, i)
      {
        var instruction := result[i];
        NamesOfAreIn(code, i);
        SameNames(code[i], instruction);
        if OpensSeh(instruction) {
          SehIsNecessary(code, marked, labelsReached, i, skipping);
          Mark(code, marked, labelsReached, i, skipping, false);
          marked := marked + {i};
          result := result[i := instruction.(live := true)];
          skipping := false;
        } else if !skipping {
          NextIsNecessary(code, marked, labelsReached, i);
          Mark(code, marked, labelsReached, i, skipping, instruction.op == BR);
          marked := marked + {i};
          result := result[i := instruction.(live := true)];
          labelsReached, done := Record(instruction, labelsReached, done);
          skipping := instruction.op == BR;
        } else if instruction.op == LABEL && Name(instruction) in labelsReached {
          ReachedIsNecessary(code, marked, labelsReached, i, skipping);
          Mark(code, marked, labelsReached, i, skipping, false);
          marked := marked + {i};
          result := result[i := instruction.(live := true)];
          skipping := false;
        } else {
          SkipOver(code, marked, labelsReached, i);
        }
        i := i + 1;
      }
      first := false;
    }
    Finished(code, marked, labelsReached, skipping);
  }

  lemma Start(code: seq<Instr>)
    ensures ScanInv(code, {}, {}, |code|, false)
  {
    hide TableRow, NamesOf, Closed;
  }

  lemma SameNames(a: Instr, b: Instr)
    requires b == a.(live := b.live)
    ensures NamesOf(a) == NamesOf(b) && Name(a) == Name(b)
  {
    hide TableRow;
  }

  lemma NextIsNecessary(code: seq<Instr>, marked: set<nat>, names: set<string>, at: nat)
    requires ScanInv(code, marked, names, at, false) && at < |code|
    ensures Necessary(code, marked + {at})
  {
    hide TableRow, NamesOf, Closed;
  }

  // There is only one such set.
  lemma LeastClosedIsUnique(code: seq<Instr>, s: set<nat>, t: set<nat>)
    requires IsLeastClosed(code, s) && IsLeastClosed(code, t)
    ensures s == t
  {
    hide TableRow, NamesOf, Closed;
    assert s <= t && t <= s;
  }
}
