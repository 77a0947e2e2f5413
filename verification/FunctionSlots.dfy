// JVMWriter.printFunction: the loop nest is printed, values and setjmp calls
// get their local variable slots, and longjmp finds the slots again.
module FunctionSlots {
  import opened Bytes
  import opened LoopPrinting

  // n slots in a row.
  function Row(start: nat, n: nat): (s: seq<nat>)
    ensures |s| == n
  {
    if n == 0 then [] else Row(start, n - 1) + [start + n - 1]
  }

  lemma {:induction false} RowsJoin(start: nat, m: nat, n: nat)
    ensures Row(start, m) + Row(start + m, n) == Row(start, m + n)
  {
    if n == 0 {
      assert Row(start, m) + [] == Row(start, m);
    } else {
      RowsJoin(start, m, n - 1);
      assert Row(start, m) + Row(start + m, n) == Row(start, m) + Row(start + m, n - 1) + [start + m + n - 1];
    }
  }

  predicate UsesOnly(events: seq<Event>, known: set<Value>) {
    forall i :: 0 <= i < |events| && events[i].Use? ==> events[i].v in known
  }

  // Every body asks for values that have their slot already.
  ghost predicate BodiesUseOnly(blocks: seq<BlockId>, bodies: Bodies, known: set<Value>) {
    forall b :: b in blocks ==> b in bodies && UsesOnly(bodies[b], known)
  }

  // The printed items, the slots taken, and the slots of the values.
  datatype Snapshot = Snapshot(items: seq<Item>, used: nat, jumps: seq<nat>, vars: map<Value, nat>)

  // Printing these items took one slot for each setjmp call among them.
  ghost predicate After(s: Snapshot, more: seq<Item>, bodies: Bodies, t: Snapshot) {
    && t.items == s.items + more
    && t.used == s.used + JumpsOf(more, bodies)
    && t.jumps == s.jumps + Row(s.used, JumpsOf(more, bodies))
    && t.vars == s.vars
  }

  lemma {:induction false} AfterBoth(s: Snapshot, a: seq<Item>, t: Snapshot, b: seq<Item>, u: Snapshot, bodies: Bodies)
    requires After(s, a, bodies, t) && After(t, b, bodies, u)
    ensures After(s, a + b, bodies, u)
  {
    hide JumpsOf, Row;
    JumpsOfAdd(a, b, bodies);
    RowsJoin(s.used, JumpsOf(a, bodies), JumpsOf(b, bodies));
    assert s.items + (a + b) == s.items + a + b;
  }

  lemma {:induction false} NothingPrinted(s: Snapshot, bodies: Bodies)
    ensures After(s, [], bodies, s)
  {
  }

  // A block makes the setjmp calls of its body, with or without its label.
  lemma {:induction false} BlockJumps(b: BlockId, bodies: Bodies)
    requires b in bodies
    ensures JumpsOf(BlockItems(b), bodies) == JumpsOf([Body(b)], bodies) == JumpsIn(bodies[b])
    ensures JumpsOf([Mark(b)], bodies) == JumpsOf([Back(b)], bodies) == 0
  {
    hide JumpsIn;
    var items := BlockItems(b);
    assert items[..1] == [Mark(b)] && items[..1][..0] == [];
    assert [Body(b)][..0] == [] && [Back(b)][..0] == [] && [Mark(b)][..0] == [];
  }

  // ---- Finding the loop to print ----

  // The innermost loop is the one directly here exactly at its header.
  lemma {:induction false} InnermostAt(loops: seq<Loop>, b: BlockId)
    ensures LoopFor(loops, b).None? <==> SubOf(loops, b).None?
    ensures SubOf(loops, b).Some? ==>
              LoopFor(loops, b) == match LoopFor(SubOf(loops, b).value.subloops, b)
                                   case None => SubOf(loops, b)
                                   case Some(inner) => Some(inner)
  {
    if loops != [] && b !in loops[0].blocks {
      InnermostAt(loops[1..], b);
    }
  }

  lemma {:induction false} HeaderIsInnermost(blocks: seq<BlockId>, loops: seq<Loop>, b: BlockId)
    requires Nested(blocks, loops) && SubOf(loops, b).Some?
    ensures var inner := LoopFor(loops, b);
            inner.Some? && (SubOf(loops, b).value.blocks[0] == b <==>
                              inner.value in loops && inner.value.blocks != [] && inner.value.blocks[0] == b)
    ensures SubOf(loops, b).value.blocks[0] == b ==> LoopFor(loops, b) == SubOf(loops, b)
  {
    var l := SubOf(loops, b).value;
    InnermostAt(loops, b);
    LoopHere(blocks, loops, l);
    InnermostAt(l.subloops, b);
    if l.blocks[0] == b {
      forall x | x in l.subloops ensures b !in x.blocks {
        var i :| 0 <= i < |l.subloops| && l.subloops[i] == x;
      }
    }
    var inner := LoopFor(loops, b).value;
    if inner in loops && inner.blocks != [] && inner.blocks[0] == b {
      SubIsUnique(blocks, loops, inner, b);
    }
  }

  // The label of a block still to come has not been printed.
  lemma {:induction false} NotYet(blocks: seq<BlockId>, loops: seq<Loop>, k: nat, c: BlockId)
    requires Nested(blocks, loops) && k < |blocks| && c in blocks && Place(loops, c) == blocks[k]
    ensures Mark(c) !in ItemsTo(blocks, loops, k)
  {
    hide Nested, Place;
    ToCounts(blocks, loops, k, c);
    NotBefore(blocks, loops, k);
    assert multiset(ItemsTo(blocks, loops, k))[Mark(c)] == 0;
  }

  function WidthOf(v: Value, wide: set<Value>): nat { if v in wide then 2 else 1 }

  // No two values share a slot.
  ghost predicate Apart(slots: map<Value, nat>, wide: set<Value>) {
    forall v, w :: v in slots && w in slots && v != w ==>
      slots[v] + WidthOf(v, wide) <= slots[w] || slots[w] + WidthOf(w, wide) <= slots[v]
  }

  // The slots the first k values take together.
  function Widths(vs: seq<Value>, wide: set<Value>, k: nat): nat
    requires k <= |vs|
  {
    if k == 0 then 0 else Widths(vs, wide, k - 1) + WidthOf(vs[k - 1], wide)
  }

  ghost predicate Distinct(vs: seq<Value>) { forall i, j :: 0 <= i < j < |vs| ==> vs[i] != vs[j] }

  // A method finds its arguments in the first slots, in order, a 64-bit one in
  // two.
  ghost predicate ArgumentsFirst(slots: map<Value, nat>, args: seq<Value>, wide: set<Value>, k: nat)
    requires k <= |args|
  {
    forall i :: 0 <= i < k ==> args[i] in slots && slots[args[i]] == Widths(args, wide, i)
  }

  // All other values lie from the given slot on.
  ghost predicate OthersFrom(slots: map<Value, nat>, args: seq<Value>, start: nat) {
    forall v :: v in slots && v !in args ==> slots[v] >= start
  }

  lemma {:induction false} WidthsRise(vs: seq<Value>, wide: set<Value>, i: nat, k: nat)
    requires i < k <= |vs|
    ensures Widths(vs, wide, i) + WidthOf(vs[i], wide) <= Widths(vs, wide, k)
    decreases k
  {
    if i + 1 < k {
      WidthsRise(vs, wide, i, k - 1);
    }
  }

  lemma NoneOf(args: seq<Value>, wide: set<Value>)
    ensures ArgumentsFirst(map[], args, wide, 0) && Widths(args, wide, 0) == 0
  {
  }

  lemma NextArgument(before: map<Value, nat>, after: map<Value, nat>, args: seq<Value>, wide: set<Value>, i: nat)
    requires i < |args| && ArgumentsFirst(before, args, wide, i) && args[i] !in args[..i]
    requires after == before[args[i] := Widths(args, wide, i)]
    ensures ArgumentsFirst(after, args, wide, i + 1)
  {
    hide Widths;
    forall j | 0 <= j < i ensures args[j] != args[i] {
      assert args[j] in args[..i];
    }
  }

  lemma NotAmongFirst(args: seq<Value>, i: nat)
    requires i < |args| && Distinct(args)
    ensures args[i] !in args[..i]
  {
  }

  // The slot of the pointer to variable arguments is no value's.
  lemma PointerSlotIsFree(slots: map<Value, nat>, args: seq<Value>, wide: set<Value>, v: Value)
    requires ArgumentsFirst(slots, args, wide, |args|) && OthersFrom(slots, args, Widths(args, wide, |args|) + 1) && v in slots
    ensures !(slots[v] <= Widths(args, wide, |args|) < slots[v] + WidthOf(v, wide))
  {
    if v in args {
      var i :| 0 <= i < |args| && args[i] == v;
      WidthsRise(args, wide, i, |args|);
    }
  }

  class FunctionWriter {
    const bodies: Bodies
    const wide: set<Value>           // the values of 64 bits
    var localVars: map<Value, nat>
    var usedRegisters: nat
    var items: seq<Item>
    var lastLabel: Option<BlockId>   // the last label printed, when it is a block's
    var setjmpSlots: seq<nat>        // stored to by the setjmp calls, in order
    var initialised: seq<nat>
    var scanned: seq<nat>
    var limitLocals: nat
    var vaArgNum: nat                // the slot of the pointer to variable arguments

    function Width(v: Value): nat { WidthOf(v, wide) }

    // The slots of the values do not overlap and have been counted.
    ghost predicate SlotsApart()
      reads this`localVars, this`usedRegisters
    {
      (forall v :: v in localVars ==> localVars[v] + Width(v) <= usedRegisters) && Apart(localVars, wide)
    }

    ghost predicate LabelPrinted()
      reads this`lastLabel, this`items
    {
      lastLabel.Some? ==> Mark(lastLabel.value) in items
    }

    constructor (bodies: Bodies, wide: set<Value>)
      ensures this.bodies == bodies && this.wide == wide
    {
      this.bodies, this.wide := bodies, wide;
      localVars, usedRegisters, items, lastLabel := map[], 0, [], None;
      setjmpSlots, initialised, scanned, limitLocals, vaArgNum := [], [], [], 0, 0;
    }

    method GetLocalVarNumber(v: Value) returns (n: nat)
      requires SlotsApart()
      modifies this`localVars, this`usedRegisters
      ensures SlotsApart() && v in localVars && n == localVars[v]
      ensures localVars == if v in old(localVars) then old(localVars) else old(localVars)[v := old(usedRegisters)]
      ensures usedRegisters == old(usedRegisters) + if v in old(localVars) then 0 else Width(v)
    {
      if v !in localVars {
        localVars := localVars[v := usedRegisters];
        usedRegisters := usedRegisters + 1;
        if v in wide {
          usedRegisters := usedRegisters + 1;
        }
      }
      return localVars[v];
    }

    method GetLocalVarNumbers(vs: seq<Value>)
      requires SlotsApart()
      modifies this`localVars, this`usedRegisters
      ensures SlotsApart() && old(localVars).Keys + (set v | v in vs) == localVars.Keys
      ensures usedRegisters >= old(usedRegisters)
      ensures forall v :: v in old(localVars) ==> localVars[v] == old(localVars)[v]
      ensures forall v :: v in localVars && v !in old(localVars) ==> localVars[v] >= old(usedRegisters)
    {
      hide SlotsApart;
      var i := 0;
      while i < |vs|
        invariant i <= |vs| && SlotsApart() && usedRegisters >= old(usedRegisters)
        invariant forall v :: v in old(localVars) ==> v in localVars && localVars[v] == old(localVars)[v]
        invariant forall v :: v in localVars && v !in old(localVars) ==> localVars[v] >= old(usedRegisters)
        invariant localVars.Keys == old(localVars).Keys + set v | v in vs[..i]
      {
        var _ := GetLocalVarNumber(vs[i]);
        assert vs[..i + 1] == vs[..i] + [vs[i]];
        i := i + 1;
      }
      assert vs[..i] == vs;
    }

    method PrintLabel(b: BlockId)
      modifies this`items, this`lastLabel
      ensures items == old(items) + if old(lastLabel) == Some(b) then [] else [Mark(b)]
      ensures lastLabel == Some(b)
    {
      if lastLabel != Some(b) {
        items := items + [Mark(b)];
        lastLabel := Some(b);
      }
    }

    // A setjmp call keeps its identifier in a slot of its own.
    method PrintBasicBlock(b: BlockId)
      requires b in bodies && UsesOnly(bodies[b], localVars.Keys) && SlotsApart() && LabelPrinted()
      modifies this`items, this`lastLabel, this`usedRegisters, this`setjmpSlots, this`localVars
      ensures SlotsApart() && LabelPrinted() && localVars == old(localVars)
      ensures items == old(items) + if old(lastLabel) == Some(b) then [Body(b)] else BlockItems(b)
      ensures usedRegisters == old(usedRegisters) + JumpsIn(bodies[b])
      ensures setjmpSlots == old(setjmpSlots) + Row(old(usedRegisters), JumpsIn(bodies[b]))
    {
      hide SlotsApart, JumpsIn, Row;
      PrintLabel(b);
      items := items + [Body(b)];
      PrintEvents(bodies[b]);
    }

    method PrintEvents(events: seq<Event>)
      requires UsesOnly(events, localVars.Keys) && SlotsApart()
      modifies this`lastLabel, this`usedRegisters, this`setjmpSlots, this`localVars
      ensures SlotsApart() && localVars == old(localVars) && (lastLabel == old(lastLabel) || lastLabel.None?)
      ensures usedRegisters == old(usedRegisters) + JumpsIn(events)
      ensures setjmpSlots == old(setjmpSlots) + Row(old(usedRegisters), JumpsIn(events))
    {
      hide SlotsApart;
      var i := 0;
      while i < |events|
        invariant i <= |events| && SlotsApart() && localVars == old(localVars)
        invariant lastLabel == old(lastLabel) || lastLabel.None?
        invariant usedRegisters == old(usedRegisters) + JumpsIn(events[..i])
        invariant setjmpSlots == old(setjmpSlots) + Row(old(usedRegisters), JumpsIn(events[..i]))
      {
        assert events[..i + 1][..i] == events[..i];
        match events[i] {
          case Use(v) =>
            var _ := GetLocalVarNumber(v);
          case Setjmp =>
            var varNum := TakeRegister();
            setjmpSlots := setjmpSlots + [varNum];
            lastLabel := None;
          case OwnLabel =>
            lastLabel := None;
        }
        i := i + 1;
      }
      assert events[..i] == events;
    }

    method TakeRegister() returns (varNum: nat)
      requires SlotsApart()
      modifies this`usedRegisters
      ensures SlotsApart() && varNum == old(usedRegisters) && usedRegisters == varNum + 1
    {
      varNum := usedRegisters;
      usedRegisters := usedRegisters + 1;
    }

    ghost function Snap(): Snapshot
      reads this
    {
      Snapshot(items, usedRegisters, setjmpSlots, localVars)
    }

    // Prints block k, or the loop it heads, or nothing when it is inside a
    // loop; the blocks before it have been dealt with.
    method PrintNext(blocks: seq<BlockId>, loops: seq<Loop>, k: nat, ghost start: seq<Item>)
      requires Nested(blocks, loops) && k < |blocks|
      requires BodiesUseOnly(blocks, bodies, localVars.Keys) && SlotsApart() && LabelPrinted()
      requires items == start + ItemsTo(blocks, loops, k) && forall b :: b in blocks ==> Mark(b) !in start
      modifies this`items, this`lastLabel, this`usedRegisters, this`setjmpSlots, this`localVars
      ensures SlotsApart() && LabelPrinted()
      ensures After(old(Snap()), ItemsOf(loops, blocks[k]), bodies, Snap())
      decreases loops, 2
    {
      hide Nested, ItemsTo, JumpsOf, Row, After;
      var b := blocks[k];
      ghost var before := Snap();
      ItemsOfSub(loops, b);
      InnermostAt(loops, b);
      var blockLoop := LoopFor(loops, b);
      if blockLoop.None? {
        NotYet(blocks, loops, k, b);
        PrintBasicBlock(b);
        BlockPrinted(before, b, BlockItems(b), Snap(), bodies);
      } else {
        HeaderIsInnermost(blocks, loops, b);
        var l := blockLoop.value;
        if l in loops && l.blocks != [] && b == l.blocks[0] {
          var i :| 0 <= i < |loops| && loops[i] == l;
          LoopHere(blocks, loops, l);
          forall c | c in l.blocks ensures Mark(c) !in items {
            SubIsUnique(blocks, loops, l, c);
            NotYet(blocks, loops, k, c);
          }
          PrintLoop(loops[i]);
        } else {
          NothingPrinted(before, bodies);
        }
      }
    }

    method PrintLoop(l: Loop)
      requires l.blocks != [] && Nested(l.blocks, l.subloops) && HeaderIsOwn(l)
      requires BodiesUseOnly(l.blocks, bodies, localVars.Keys) && SlotsApart() && LabelPrinted()
      requires forall b :: b in l.blocks ==> Mark(b) !in items
      modifies this`items, this`lastLabel, this`usedRegisters, this`setjmpSlots, this`localVars
      ensures SlotsApart() && LabelPrinted()
      ensures After(old(Snap()), LoopItems(l), bodies, Snap())
      decreases l, 1
    {
      hide Nested, JumpsOf, ItemsTo, Row, After;
      var header := l.blocks[0];
      ghost var start := Snap();
      PrintLabel(header);
      ghost var labelled := Snap();
      PrintBasicBlock(header);
      HeaderPrinted(start, labelled, l, Snap(), bodies);
      var k := 1;
      while k < |l.blocks|
        invariant 1 <= k <= |l.blocks| && SlotsApart() && LabelPrinted()
        invariant After(start, ItemsTo(l.blocks, l.subloops, k), bodies, Snap())
      {
        ghost var before := Snap();
        AfterItems(start, ItemsTo(l.blocks, l.subloops, k), bodies, before);
        PrintNext(l.blocks, l.subloops, k, start.items);
        AfterBoth(start, ItemsTo(l.blocks, l.subloops, k), before, ItemsOf(l.subloops, l.blocks[k]), Snap(), bodies);
        NextItems(l.blocks, l.subloops, k);
        k := k + 1;
      }
      ghost var before := Snap();
      items := items + [Back(header)];
      BackPrinted(before, header, Snap(), bodies);
      AfterBoth(start, ItemsTo(l.blocks, l.subloops, k), before, [Back(header)], Snap(), bodies);
    }

    method PrintFunctionBody(blocks: seq<BlockId>, loops: seq<Loop>)
      requires Nested(blocks, loops) && BodiesUseOnly(blocks, bodies, localVars.Keys) && SlotsApart() && LabelPrinted()
      requires items == []
      modifies this`items, this`lastLabel, this`usedRegisters, this`setjmpSlots, this`localVars
      ensures SlotsApart() && LabelPrinted()
      ensures After(old(Snap()), FunctionItems(blocks, loops), bodies, Snap())
    {
      hide Nested, JumpsOf, Row, After, ItemsOf;
      ghost var start := Snap();
      NothingPrinted(start, bodies);
      var k := 0;
      while k < |blocks|
        invariant k <= |blocks| && SlotsApart() && LabelPrinted()
        invariant After(start, ItemsTo(blocks, loops, k), bodies, Snap())
      {
        ghost var before := Snap();
        AfterItems(start, ItemsTo(blocks, loops, k), bodies, before);
        PrintNext(blocks, loops, k, []);
        AfterBoth(start, ItemsTo(blocks, loops, k), before, ItemsOf(loops, blocks[k]), Snap(), bodies);
        k := k + 1;
      }
    }

    // Looks for the identifier of the jump in the slots before its own.
    method PrintCatchJump(numJumps: nat) returns (jumpVarNum: nat)
      requires SlotsApart() && numJumps <= usedRegisters
      modifies this`usedRegisters, this`scanned
      ensures SlotsApart() && jumpVarNum == old(usedRegisters) && usedRegisters == jumpVarNum + 1
      ensures scanned == old(scanned) + Row(jumpVarNum - numJumps, numJumps)
    {
      jumpVarNum := usedRegisters;
      usedRegisters := usedRegisters + 1;
      var start := usedRegisters - 1 - numJumps;
      var i := start;
      while i < usedRegisters - 1
        invariant usedRegisters == jumpVarNum + 1 && SlotsApart()
        invariant start <= i <= jumpVarNum && scanned == old(scanned) + Row(start, i - start)
      {
        scanned := scanned + [i];
        i := i + 1;
      }
    }

    // The slots initialised before the body, those the setjmp calls use and
    // those a longjmp looks through are the same ones, in a row behind the
    // values; everything lies below the limit.
    method PrintFunction(args: seq<Value>, isVarArg: bool, blocks: seq<BlockId>, loops: seq<Loop>, results: seq<Value>)
      returns (firstJump: nat)
      requires localVars == map[] && usedRegisters == 0 && items == [] && lastLabel.None?
      requires setjmpSlots == initialised == scanned == []
      requires Nested(blocks, loops) && BodiesUseOnly(blocks, bodies, (set v | v in args) + (set v | v in results))
      modifies this
      ensures SlotsApart() && localVars.Keys == (set v | v in args) + (set v | v in results)
      ensures Distinct(args) ==>
                && ArgumentsFirst(localVars, args, wide, |args|)
                && OthersFrom(localVars, args, Widths(args, wide, |args|) + if isVarArg then 1 else 0)
                && (isVarArg ==> vaArgNum == Widths(args, wide, |args|))
      ensures items == FunctionItems(blocks, loops)
      ensures var n := JumpsTo(blocks, bodies, |blocks|);
              && setjmpSlots == initialised == scanned == Row(firstJump, n)
              && limitLocals == firstJump + n + (if n > 0 then 1 else 0)
      ensures forall v :: v in localVars ==> localVars[v] + Width(v) <= firstJump
    {
      hide Nested, JumpsIn, JumpsOf, JumpsTo, ItemsTo, BodiesUseOnly, UsesOnly, SlotsApart, Distinct, ArgumentsFirst, OthersFrom,
           Widths;
      AllocateValues(args, isVarArg, results);
      UsesKnown(blocks, bodies, (set v | v in args) + (set v | v in results), localVars.Keys);
      var numJumps := CountJumps(blocks);
      firstJump := PrintWithJumps(blocks, loops, numJumps);
    }

    method PrintWithJumps(blocks: seq<BlockId>, loops: seq<Loop>, numJumps: nat) returns (firstJump: nat)
      requires items == [] && lastLabel.None? && setjmpSlots == initialised == scanned == []
      requires Nested(blocks, loops) && BodiesUseOnly(blocks, bodies, localVars.Keys) && SlotsApart()
      requires HasBodies(blocks, bodies) && numJumps == JumpsTo(blocks, bodies, |blocks|)
      modifies this
      ensures SlotsApart() && localVars == old(localVars) && vaArgNum == old(vaArgNum)
      ensures items == FunctionItems(blocks, loops)
      ensures setjmpSlots == initialised == scanned == Row(firstJump, numJumps)
      ensures limitLocals == firstJump + numJumps + (if numJumps > 0 then 1 else 0)
      ensures forall v :: v in localVars ==> localVars[v] + Width(v) <= firstJump
    {
      hide Nested, JumpsIn, JumpsOf, JumpsTo, ItemsTo, BodiesUseOnly, UsesOnly, SlotsApart, Row;
      InitialiseJumps(numJumps);
      firstJump := usedRegisters;
      ghost var before := Snap();
      ValuesBelow();
      PrintFunctionBody(blocks, loops);
      BodyPrinted(before, FunctionItems(blocks, loops), bodies, Snap());
      JumpsAreCounted(blocks, loops, bodies);
      if numJumps != 0 {
        var _ := PrintCatchJump(numJumps);
        OneRow(firstJump, numJumps);
      } else {
        NoRow(firstJump);
      }
      limitLocals := usedRegisters;
    }

    lemma {:induction false} ValuesBelow()
      requires SlotsApart()
      ensures forall v :: v in localVars ==> localVars[v] + Width(v) <= usedRegisters
    {
    }

    method AllocateValues(args: seq<Value>, isVarArg: bool, results: seq<Value>)
      requires localVars == map[] && usedRegisters == 0
      modifies this`localVars, this`usedRegisters, this`vaArgNum
      ensures SlotsApart() && localVars.Keys == (set v | v in args) + (set v | v in results)
      ensures Distinct(args) ==>
                && ArgumentsFirst(localVars, args, wide, |args|)
                && OthersFrom(localVars, args, Widths(args, wide, |args|) + if isVarArg then 1 else 0)
                && (isVarArg ==> vaArgNum == Widths(args, wide, |args|))
    {
      hide SlotsApart, Widths;
      AllocateArguments(args);
      if isVarArg {
        vaArgNum := TakeRegister();
      }
      GetLocalVarNumbers(results);
    }

    lemma NoSlotsApart()
      requires localVars == map[]
      ensures SlotsApart()
    {
    }

    method AllocateArguments(args: seq<Value>)
      requires localVars == map[] && usedRegisters == 0
      modifies this`localVars, this`usedRegisters
      ensures SlotsApart() && localVars.Keys == set v | v in args
      ensures Distinct(args) ==> ArgumentsFirst(localVars, args, wide, |args|) && usedRegisters == Widths(args, wide, |args|)
    {
      NoSlotsApart();
      hide ArgumentsFirst, SlotsApart, Distinct;
      NoneOf(args, wide);
      var i := 0;
      while i < |args|
        invariant i <= |args| && SlotsApart() && localVars.Keys == set v | v in args[..i]
        invariant Distinct(args) ==> ArgumentsFirst(localVars, args, wide, i) && usedRegisters == Widths(args, wide, i)
      {
        ghost var before := localVars;
        var _ := GetLocalVarNumber(args[i]);
        if Distinct(args) {
          NotAmongFirst(args, i);
          NextArgument(before, localVars, args, wide, i);
        }
        assert args[..i + 1] == args[..i] + [args[i]];
        i := i + 1;
      }
      assert args[..i] == args;
    }

    method InitialiseJumps(numJumps: nat)
      requires initialised == []
      modifies this`initialised
      ensures initialised == Row(usedRegisters, numJumps)
    {
      var i := 0;
      while i < numJumps
        invariant i <= numJumps && initialised == Row(usedRegisters, i)
      {
        initialised := initialised + [usedRegisters + i];
        i := i + 1;
      }
    }

    method CountJumps(blocks: seq<BlockId>) returns (numJumps: nat)
      requires HasBodies(blocks, bodies)
      ensures numJumps == JumpsTo(blocks, bodies, |blocks|)
    {
      hide JumpsIn;
      numJumps := 0;
      var k := 0;
      while k < |blocks|
        invariant k <= |blocks| && numJumps == JumpsTo(blocks, bodies, k)
      {
        var n := CountEvents(bodies[blocks[k]]);
        numJumps := numJumps + n;
        k := k + 1;
      }
    }

    method CountEvents(events: seq<Event>) returns (n: nat)
      ensures n == JumpsIn(events)
    {
      n := 0;
      var i := 0;
      while i < |events|
        invariant i <= |events| && n == JumpsIn(events[..i])
      {
        assert events[..i + 1][..i] == events[..i];
        if events[i].Setjmp? { n := n + 1; }
        i := i + 1;
      }
      assert events[..i] == events;
    }
  }

  lemma {:induction false} NoRow(start: nat)
    ensures Row(start, 0) == []
  {
  }

  lemma {:induction false} OneRow(start: nat, n: nat)
    ensures [] + Row(start, n) == Row(start, n)
  {
  }

  lemma {:induction false} BodyPrinted(s: Snapshot, more: seq<Item>, bodies: Bodies, t: Snapshot)
    requires After(s, more, bodies, t) && s.items == [] && s.jumps == []
    ensures t.items == more && t.used == s.used + JumpsOf(more, bodies) && t.jumps == Row(s.used, JumpsOf(more, bodies))
    ensures t.vars == s.vars
  {
    hide JumpsOf, Row;
    assert [] + more == more;
  }

  lemma {:induction false} BlockPrinted(s: Snapshot, b: BlockId, more: seq<Item>, t: Snapshot, bodies: Bodies)
    requires b in bodies && more == BlockItems(b) && t.items == s.items + more && t.vars == s.vars
    requires t.used == s.used + JumpsIn(bodies[b]) && t.jumps == s.jumps + Row(s.used, JumpsIn(bodies[b]))
    ensures After(s, more, bodies, t)
  {
    hide JumpsIn, JumpsOf, Row;
    BlockJumps(b, bodies);
  }

  lemma {:induction false} BackPrinted(s: Snapshot, b: BlockId, t: Snapshot, bodies: Bodies)
    requires t == s.(items := s.items + [Back(b)])
    ensures After(s, [Back(b)], bodies, t)
  {
    assert [Back(b)][..0] == [];
    assert s.jumps + [] == s.jumps;
  }

  // The header's own label is printed by the loop, its body as a block.
  lemma {:induction false} HeaderPrinted(s: Snapshot, labelled: Snapshot, l: Loop, t: Snapshot, bodies: Bodies)
    requires l.blocks != [] && HeaderIsOwn(l) && l.blocks[0] in bodies
    requires var b := l.blocks[0];
             && labelled == s.(items := s.items + [Mark(b)])
             && t.items == labelled.items + [Body(b)] && t.vars == labelled.vars
             && t.used == labelled.used + JumpsIn(bodies[b])
             && t.jumps == labelled.jumps + Row(labelled.used, JumpsIn(bodies[b]))
    ensures After(s, ItemsTo(l.blocks, l.subloops, 1), bodies, t)
  {
    hide JumpsIn, JumpsOf, Row;
    var b := l.blocks[0];
    BlockJumps(b, bodies);
    assert s.items + [Mark(b)] + [Body(b)] == s.items + BlockItems(b);
    HeaderItems(l);
  }

  lemma {:induction false} HeaderItems(l: Loop)
    requires l.blocks != [] && HeaderIsOwn(l)
    ensures ItemsTo(l.blocks, l.subloops, 1) == BlockItems(l.blocks[0])
  {
    var b := l.blocks[0];
    ItemsOfSub(l.subloops, b);
    forall x | x in l.subloops ensures b !in x.blocks {
      var i :| 0 <= i < |l.subloops| && l.subloops[i] == x;
    }
    assert ItemsTo(l.blocks, l.subloops, 0) == [];
  }

  lemma {:induction false} NextItems(blocks: seq<BlockId>, loops: seq<Loop>, k: nat)
    requires k < |blocks|
    ensures ItemsTo(blocks, loops, k + 1) == ItemsTo(blocks, loops, k) + ItemsOf(loops, blocks[k])
  {
    hide ItemsOf;
  }

  lemma {:induction false} AfterItems(s: Snapshot, more: seq<Item>, bodies: Bodies, t: Snapshot)
    requires After(s, more, bodies, t)
    ensures t.items == s.items + more && t.vars == s.vars
  {
  }

  lemma {:induction false} UsesKnown(blocks: seq<BlockId>, bodies: Bodies, known: set<Value>, vars: set<Value>)
    requires BodiesUseOnly(blocks, bodies, known) && vars == known
    ensures HasBodies(blocks, bodies) && BodiesUseOnly(blocks, bodies, vars)
  {
  }
}
