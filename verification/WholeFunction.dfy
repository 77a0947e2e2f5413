// The output for a whole function: the loop nest decides the order of the
// blocks, the ends of the blocks become branches, and every edge leads to the
// label of its block.
module WholeFunction {
  import opened Bytes
  import opened EdgeLowering
  import LoopPrinting

  // The instructions of a block, which print no labels, and its branch.
  datatype BlockCode = BlockCode(data: seq<Instr>, end: End)

  type Blocks = map<LoopPrinting.BlockId, BlockCode>

  datatype Output = Output(code: seq<Instr>, uid: nat, branchId: nat)

  function AfterEnd(end: End, rewrite: bool, out: Output): Output {
    Output(out.code + EndCode(end, out.uid + 1, rewrite, out.branchId),
           out.uid + (if end.Either? && end.t != end.f && end.tPhis != [] then 1 else 0),
           out.branchId + if end.Either? && end.t != end.f && rewrite then 1 else 0)
  }

  function Printed(items: seq<LoopPrinting.Item>, k: nat, blocks: Blocks, rewrite: bool): Output
    requires k <= |items|
  {
    if k == 0 then Output([], 0, 700)
    else
      var out := Printed(items, k - 1, blocks, rewrite);
      match items[k - 1]
      case Mark(b) => out.(code := out.code + [Mark(Block(b))])
      case Back(h) => out.(code := out.code + [Goto(Block(h))])
      case Body(b) => if b in blocks then AfterEnd(blocks[b].end, rewrite, out.(code := out.code + blocks[b].data)) else out
  }

  ghost predicate NoMarks(code: seq<Instr>) { forall i :: 0 <= i < |code| ==> !code[i].Mark? }

  ghost predicate DataOnly(blocks: Blocks) { forall b :: b in blocks ==> NoMarks(blocks[b].data) }

  // ---- Internal labels stay unique ----

  ghost predicate Sound(out: Output) { MarksBelow(out.code, out.uid, out.branchId) && InternalMarksUnique(out.code) }

  lemma {:induction false} CopiesHaveNoMarks(phis: seq<Phi>)
    ensures NoMarks(Copies(phis))
  {
    if phis != [] {
      CopiesHaveNoMarks(phis[1..]);
    }
  }

  lemma OneTargetHasNoMarks(dest: nat, phis: seq<Phi>)
    ensures NoMarks(OneTarget(dest, phis))
  {
    CopiesHaveNoMarks(phis);
    hide Copies;
  }

  lemma PlainKeepsSound(out: Output, more: seq<Instr>)
    requires Sound(out) && NoMarks(more)
    ensures Sound(out.(code := out.code + more))
  {
    NoMark(out.code, more, out.uid, out.branchId);
  }

  lemma EndKeepsSound(end: End, rewrite: bool, out: Output)
    requires Sound(out)
    ensures Sound(AfterEnd(end, rewrite, out))
  {
    hide OneTarget, MarksBelow, InternalMarksUnique, NoMarks;
    match end {
      case Always(dest, phis) =>
        OneTargetHasNoMarks(dest, phis);
        PlainKeepsSound(out, OneTarget(dest, phis));
      case Either(t, tPhis, f, fPhis) =>
        OneTargetHasNoMarks(t, tPhis);
        OneTargetHasNoMarks(f, fPhis);
        if t == f {
          PopAndGo(t, tPhis);
          PlainKeepsSound(out, [Pop] + OneTarget(t, tPhis));
        } else {
          var l := TrueLabel(t, tPhis, out.uid + 1);
          var first := ConditionalKeepsSound(out, rewrite, l);
          PlainKeepsSound(first, OneTarget(f, fPhis));
          var second := first.(code := first.code + OneTarget(f, fPhis));
          if tPhis != [] {
            NewMark(second.code, l, out.uid, second.branchId, out.uid + 1, second.branchId);
            var third := Output(second.code + [Mark(l)], out.uid + 1, second.branchId);
            PlainKeepsSound(third, OneTarget(t, tPhis));
            assert third.code + OneTarget(t, tPhis) == out.code + EndCode(end, out.uid + 1, rewrite, out.branchId);
          } else {
            assert second.code == out.code + EndCode(end, out.uid + 1, rewrite, out.branchId);
          }
        }
    }
  }

  lemma PopAndGo(dest: nat, phis: seq<Phi>)
    ensures NoMarks([Pop] + OneTarget(dest, phis))
  {
    OneTargetHasNoMarks(dest, phis);
  }

  lemma ConditionalKeepsSound(out: Output, rewrite: bool, l: Label) returns (after: Output)
    requires Sound(out)
    ensures Sound(after) && after.uid == out.uid && after.branchId == out.branchId + if rewrite then 1 else 0
    ensures after.code == out.code + Conditional(rewrite, IfNe, l, out.branchId)
  {
    hide MarksBelow, InternalMarksUnique;
    if rewrite {
      var own := BranchLabel(out.branchId);
      PlainKeepsSound(out, [Branch(IfEq, own), Goto(l)]);
      var before := out.code + [Branch(IfEq, own), Goto(l)];
      NewMark(before, own, out.uid, out.branchId, out.uid, out.branchId + 1);
      after := Output(before + [Mark(own)], out.uid, out.branchId + 1);
    } else {
      PlainKeepsSound(out, [Branch(IfNe, l)]);
      after := out.(code := out.code + [Branch(IfNe, l)]);
    }
  }

  lemma {:induction false} PrintedIsSound(items: seq<LoopPrinting.Item>, k: nat, blocks: Blocks, rewrite: bool)
    requires k <= |items| && DataOnly(blocks)
    ensures Sound(Printed(items, k, blocks, rewrite))
  {
    hide AfterEnd, MarksBelow, InternalMarksUnique, NoMarks;
    if k == 0 {
      NothingIsSound();
    } else {
      PrintedIsSound(items, k - 1, blocks, rewrite);
      var out := Printed(items, k - 1, blocks, rewrite);
      match items[k - 1] {
        case Mark(b) => NewMark(out.code, Block(b), out.uid, out.branchId, out.uid, out.branchId);
        case Back(h) => GotoKeepsSound(out, h);
        case Body(b) =>
          if b in blocks {
            PlainKeepsSound(out, blocks[b].data);
            EndKeepsSound(blocks[b].end, rewrite, out.(code := out.code + blocks[b].data));
          }
      }
    }
  }

  lemma NothingIsSound()
    ensures Sound(Output([], 0, 700))
  {
  }

  lemma GotoKeepsSound(out: Output, h: nat)
    requires Sound(out)
    ensures Sound(out.(code := out.code + [Goto(Block(h))]))
  {
    PlainKeepsSound(out, [Goto(Block(h))]);
  }

  // ---- Block labels stand where their blocks are printed ----

  ghost predicate NoBlockMarks(code: seq<Instr>) {
    forall i :: 0 <= i < |code| && code[i].Mark? ==> !code[i].l.Block?
  }

  lemma EndHasNoBlockMarks(end: End, rewrite: bool, out: Output)
    ensures NoBlockMarks(EndCode(end, out.uid + 1, rewrite, out.branchId))
  {
    hide OneTarget;
    match end {
      case Always(dest, phis) => OneTargetHasNoMarks(dest, phis);
      case Either(t, tPhis, f, fPhis) =>
        OneTargetHasNoMarks(t, tPhis);
        OneTargetHasNoMarks(f, fPhis);
    }
  }

  // What printing item k appends.
  function Piece(items: seq<LoopPrinting.Item>, k: nat, blocks: Blocks, rewrite: bool): seq<Instr>
    requires k < |items|
  {
    match items[k]
    case Mark(b) => [Mark(Block(b))]
    case Back(h) => [Goto(Block(h))]
    case Body(b) =>
      if b in blocks then
        var out := Printed(items, k, blocks, rewrite);
        blocks[b].data + EndCode(blocks[b].end, out.uid + 1, rewrite, out.branchId)
      else []
  }

  lemma PieceIsAppended(items: seq<LoopPrinting.Item>, k: nat, blocks: Blocks, rewrite: bool)
    requires k < |items|
    ensures Printed(items, k + 1, blocks, rewrite).code
         == Printed(items, k, blocks, rewrite).code + Piece(items, k, blocks, rewrite)
  {
    hide EndCode;
    var out := Printed(items, k, blocks, rewrite);
    if items[k].Body? && items[k].b in blocks {
      assert out.code + blocks[items[k].b].data + EndCode(blocks[items[k].b].end, out.uid + 1, rewrite, out.branchId)
          == out.code + Piece(items, k, blocks, rewrite);
    }
  }

  lemma PieceMarks(items: seq<LoopPrinting.Item>, k: nat, blocks: Blocks, rewrite: bool)
    requires k < |items| && DataOnly(blocks)
    ensures items[k].Mark? || NoBlockMarks(Piece(items, k, blocks, rewrite))
  {
    hide EndCode, Printed;
    if items[k].Body? && items[k].b in blocks {
      EndHasNoBlockMarks(blocks[items[k].b].end, rewrite, Printed(items, k, blocks, rewrite));
      assert NoMarks(blocks[items[k].b].data);
    }
  }

  lemma {:induction false} PrintedGrows(items: seq<LoopPrinting.Item>, j: nat, k: nat, blocks: Blocks, rewrite: bool)
    requires j <= k <= |items|
    ensures Printed(items, j, blocks, rewrite).code <= Printed(items, k, blocks, rewrite).code
    decreases k
  {
    hide Printed, Piece;
    if j < k {
      PrintedGrows(items, j, k - 1, blocks, rewrite);
      PieceIsAppended(items, k - 1, blocks, rewrite);
    }
  }

  ghost predicate MarkedOnceAt(items: seq<LoopPrinting.Item>, b: nat, j: nat) {
    j < |items| && items[j] == LoopPrinting.Mark(b) && forall i :: 0 <= i < |items| && items[i] == LoopPrinting.Mark(b) ==> i == j
  }

  // The label of a block stands once in the code, where its item is printed.
  lemma {:induction false} LabelStands(items: seq<LoopPrinting.Item>, k: nat, blocks: Blocks, rewrite: bool, b: nat, j: nat)
    requires MarkedOnceAt(items, b, j) && k <= |items| && DataOnly(blocks)
    ensures var code, at := Printed(items, k, blocks, rewrite).code, |Printed(items, j, blocks, rewrite).code|;
            if j < k then MarkedAt(code, Block(b), at)
            else Unmarked(code, Block(b))
  {
    hide Piece, NoBlockMarks, MarkedAt;
    if k == 0 {
      assert Printed(items, 0, blocks, rewrite).code == [];
    } else {
      hide Printed;
      LabelStands(items, k - 1, blocks, rewrite, b, j);
      PieceIsAppended(items, k - 1, blocks, rewrite);
      PieceMarks(items, k - 1, blocks, rewrite);
      MarkPiece(items, k - 1, blocks, rewrite);
      var front, piece := Printed(items, k - 1, blocks, rewrite).code, Piece(items, k - 1, blocks, rewrite);
      NoOtherMark(piece, items[k - 1], b);
      if j < k - 1 {
        MarkIsKept(front, piece, Block(b), |Printed(items, j, blocks, rewrite).code|);
      } else if j == k - 1 {
        MarkIsNew(front, Block(b));
      } else {
        MarkIsMissing(front, piece, Block(b));
      }
    }
  }

  ghost predicate Unmarked(code: seq<Instr>, l: Label) { forall i :: 0 <= i < |code| ==> code[i] != Mark(l) }

  lemma NoOtherMark(piece: seq<Instr>, item: LoopPrinting.Item, b: nat)
    requires if item.Mark? then piece == [Mark(Block(item.b))] else NoBlockMarks(piece)
    ensures item != LoopPrinting.Mark(b) ==> Unmarked(piece, Block(b))
  {
  }

  lemma MarkIsKept(front: seq<Instr>, piece: seq<Instr>, l: Label, at: nat)
    requires MarkedAt(front, l, at) && Unmarked(piece, l)
    ensures MarkedAt(front + piece, l, at)
  {
    assert forall i :: |front| <= i < |front + piece| ==> (front + piece)[i] == piece[i - |front|];
  }

  lemma MarkIsNew(front: seq<Instr>, l: Label)
    requires Unmarked(front, l)
    ensures MarkedAt(front + [Mark(l)], l, |front|)
  {
  }

  lemma MarkIsMissing(front: seq<Instr>, piece: seq<Instr>, l: Label)
    requires Unmarked(front, l) && Unmarked(piece, l)
    ensures Unmarked(front + piece, l)
  {
    assert forall i :: |front| <= i < |front + piece| ==> (front + piece)[i] == piece[i - |front|];
  }

  lemma MarkPiece(items: seq<LoopPrinting.Item>, k: nat, blocks: Blocks, rewrite: bool)
    requires k < |items|
    ensures items[k].Mark? ==> Piece(items, k, blocks, rewrite) == [Mark(Block(items[k].b))]
  {
    hide Printed, EndCode;
  }

  lemma OnceIsSomewhere(items: seq<LoopPrinting.Item>, item: LoopPrinting.Item) returns (j: nat)
    requires multiset(items)[item] == 1
    ensures j < |items| && items[j] == item && forall i :: 0 <= i < |items| && items[i] == item ==> i == j
  {
    assert item in items;
    j :| 0 <= j < |items| && items[j] == item;
    assert items == items[..j] + [item] + items[j + 1..];
    assert multiset(items[..j])[item] == 0 && multiset(items[j + 1..])[item] == 0;
    assert item !in items[..j] && item !in items[j + 1..];
  }

  // ---- A label comes right before its block ----

  ghost predicate Labelled(items: seq<LoopPrinting.Item>) {
    forall k :: 0 <= k < |items| && items[k].Body? ==> k > 0 && items[k - 1] == LoopPrinting.Mark(items[k].b)
  }

  lemma LabelledAdd(a: seq<LoopPrinting.Item>, b: seq<LoopPrinting.Item>)
    requires Labelled(a) && Labelled(b)
    ensures Labelled(a + b)
  {
    forall k | 0 <= k < |a + b| && (a + b)[k].Body? ensures k > 0 && (a + b)[k - 1] == LoopPrinting.Mark((a + b)[k].b) {
      if k >= |a| { assert (a + b)[k] == b[k - |a|]; }
    }
  }

  lemma {:induction false} ToIsLabelled(blocks: seq<nat>, loops: seq<LoopPrinting.Loop>, k: nat)
    requires k <= |blocks| && forall i :: 0 <= i < |loops| ==> LoopPrinting.Nested(loops[i].blocks, loops[i].subloops)
    ensures Labelled(LoopPrinting.ItemsTo(blocks, loops, k))
    decreases loops, 2, k
  {
    hide Labelled;
    if k == 0 {
      NothingIsLabelled(blocks, loops);
    } else {
      ToIsLabelled(blocks, loops, k - 1);
      OfIsLabelled(loops, blocks[k - 1]);
      LabelledAdd(LoopPrinting.ItemsTo(blocks, loops, k - 1), LoopPrinting.ItemsOf(loops, blocks[k - 1]));
    }
  }

  lemma NothingIsLabelled(blocks: seq<nat>, loops: seq<LoopPrinting.Loop>)
    ensures Labelled(LoopPrinting.ItemsTo(blocks, loops, 0)) && Labelled([])
  {
  }

  lemma {:induction false} OfIsLabelled(loops: seq<LoopPrinting.Loop>, b: nat)
    requires forall i :: 0 <= i < |loops| ==> LoopPrinting.Nested(loops[i].blocks, loops[i].subloops)
    ensures Labelled(LoopPrinting.ItemsOf(loops, b))
    decreases loops, 1
  {
    if loops == [] {
    } else if b in loops[0].blocks {
      var l := loops[0];
      if l.blocks[0] == b {
        LoopIsLabelled(l);
      }
    } else {
      OfIsLabelled(loops[1..], b);
    }
  }

  lemma {:induction false} LoopIsLabelled(l: LoopPrinting.Loop)
    requires l.blocks != [] && LoopPrinting.Nested(l.blocks, l.subloops)
    ensures Labelled(LoopPrinting.LoopItems(l))
    decreases l, 3
  {
    ToIsLabelled(l.blocks, l.subloops, |l.blocks|);
    BackIsLabelled(l.blocks[0]);
    hide Labelled;
    LabelledAdd(LoopPrinting.ItemsTo(l.blocks, l.subloops, |l.blocks|), [LoopPrinting.Back(l.blocks[0])]);
  }

  lemma BackIsLabelled(h: nat)
    ensures Labelled([LoopPrinting.Back(h)])
  {
  }

  // ---- The whole function ----

  function FunctionCode(order: seq<nat>, loops: seq<LoopPrinting.Loop>, blocks: Blocks, rewrite: bool): seq<Instr> {
    var items := LoopPrinting.FunctionItems(order, loops);
    Printed(items, |items|, blocks, rewrite).code
  }

  // Every block stands once, behind the one label it has, its branch last.
  lemma BlockStands(order: seq<nat>, loops: seq<LoopPrinting.Loop>, blocks: Blocks, rewrite: bool, b: nat)
      returns (place: nat, out: Output)
    requires LoopPrinting.Nested(order, loops) && DataOnly(blocks) && b in order && b in blocks
    ensures var code := FunctionCode(order, loops, blocks, rewrite);
            && MarkedAt(code, Block(b), place)
            && Has(code, place + 1, blocks[b].data + EndCode(blocks[b].end, out.uid + 1, rewrite, out.branchId))
  {
    hide Printed, EndCode, MarkedAt, LoopPrinting.ItemsTo, LoopPrinting.Nested;
    var items := LoopPrinting.FunctionItems(order, loops);
    var code := FunctionCode(order, loops, blocks, rewrite);
    LoopPrinting.EveryBlockOnce(order, loops, b);
    var j := OnceIsSomewhere(items, LoopPrinting.Mark(b));
    var k := OnceIsSomewhere(items, LoopPrinting.Body(b));
    NestedLoops(order, loops);
    ToIsLabelled(order, loops, |order|);
    assert Labelled(items) && items[k].Body?;
    assert k > 0 && items[k - 1] == LoopPrinting.Mark(b);
    assert j == k - 1;
    LabelStands(items, |items|, blocks, rewrite, b, j);
    place := |Printed(items, j, blocks, rewrite).code|;
    out := Printed(items, k, blocks, rewrite);
    PieceIsAppended(items, j, blocks, rewrite);
    MarkPiece(items, j, blocks, rewrite);
    PieceIsAppended(items, k, blocks, rewrite);
    PrintedGrows(items, k + 1, |items|, blocks, rewrite);
    Behind(out.code, Piece(items, k, blocks, rewrite), code);
  }

  // Execution starts at the label of the first block, and its code follows.
  lemma EntryStands(order: seq<nat>, loops: seq<LoopPrinting.Loop>, blocks: Blocks, rewrite: bool)
    requires LoopPrinting.Nested(order, loops) && order != [] && order[0] in blocks
    requires (forall l :: l in loops ==> l.blocks != []) && LoopPrinting.HeadsItsLoop(loops, order[0])
    ensures var entry := blocks[order[0]];
            [Mark(Block(order[0]))] + entry.data + EndCode(entry.end, 1, rewrite, 700) <= FunctionCode(order, loops, blocks, rewrite)
  {
    hide EndCode, LoopPrinting.ItemsTo, LoopPrinting.Nested, LoopPrinting.HeadsItsLoop;
    var items, entry := LoopPrinting.FunctionItems(order, loops), blocks[order[0]];
    LoopPrinting.EntryIsFirst(order, loops);
    assert items[0] == LoopPrinting.Mark(order[0]) && items[1] == LoopPrinting.Body(order[0]);
    assert Printed(items, 0, blocks, rewrite) == Output([], 0, 700);
    assert Printed(items, 1, blocks, rewrite) == Output([Mark(Block(order[0]))], 0, 700);
    assert Printed(items, 2, blocks, rewrite).code == [Mark(Block(order[0]))] + entry.data + EndCode(entry.end, 1, rewrite, 700);
    PrintedGrows(items, 2, |items|, blocks, rewrite);
  }

  lemma NestedLoops(order: seq<nat>, loops: seq<LoopPrinting.Loop>)
    requires LoopPrinting.Nested(order, loops)
    ensures forall i :: 0 <= i < |loops| ==> LoopPrinting.Nested(loops[i].blocks, loops[i].subloops)
  {
  }

  lemma Behind(front: seq<Instr>, piece: seq<Instr>, code: seq<Instr>)
    requires front + piece <= code
    ensures Has(code, |front|, piece)
  {
    assert code[..|front + piece|][|front|..] == piece;
  }

  lemma LabelOf(order: seq<nat>, loops: seq<LoopPrinting.Loop>, blocks: Blocks, rewrite: bool, b: nat) returns (place: nat)
    requires LoopPrinting.Nested(order, loops) && DataOnly(blocks) && b in order
    ensures MarkedAt(FunctionCode(order, loops, blocks, rewrite), Block(b), place)
  {
    hide Printed, MarkedAt, LoopPrinting.ItemsTo, LoopPrinting.Nested;
    var items := LoopPrinting.FunctionItems(order, loops);
    LoopPrinting.EveryBlockOnce(order, loops, b);
    var j := OnceIsSomewhere(items, LoopPrinting.Mark(b));
    LabelStands(items, |items|, blocks, rewrite, b, j);
    place := |Printed(items, j, blocks, rewrite).code|;
  }

  // Whatever the end of a block and whichever edge it takes, the printed
  // function goes from there to the label of the right block, with every PHI
  // holding its incoming value for that edge and nothing else changed, from all
  // values exactly when that edge loses no copy.
  lemma EveryEdgeKeepsMeaningIff(order: seq<nat>, loops: seq<LoopPrinting.Loop>, blocks: Blocks, rewrite: bool, b: nat, v: int)
      returns (place: nat, target: nat)
    requires LoopPrinting.Nested(order, loops) && DataOnly(blocks) && b in order && b in blocks
    requires OneListEach(blocks[b].end) && Leaves(blocks[b].end, order) && DistinctPhis(Taken(blocks[b].end, v).phis)
    ensures var code, end := FunctionCode(order, loops, blocks, rewrite), blocks[b].end;
            var at, phis := place + 1 + |blocks[b].data|, Taken(end, v).phis;
            && MarkedAt(code, Block(b), place) && MarkedAt(code, Block(Taken(end, v).dest), target)
            && (forall stack, regs ::
                  Leads(code, AtEnd(end, at, v, stack, regs), State(target, stack, Sequential(phis, |phis|, regs))))
            && ((forall stack, regs :: EdgeKept(code, at, end, v, target, stack, regs)) <==> NoLostCopy(phis, |phis|))
  {
    hide Leads, MarkedAt, EndCode, EdgeKept, NoLostCopy, DistinctPhis, Sequential, Printed, InternalMarksUnique, MarksBelow,
         LoopPrinting.Nested, LoopPrinting.FunctionItems;
    var code, end := FunctionCode(order, loops, blocks, rewrite), blocks[b].end;
    var out;
    place, out := BlockStands(order, loops, blocks, rewrite, b);
    target := LabelOf(order, loops, blocks, rewrite, Taken(end, v).dest);
    var other := LabelOf(order, loops, blocks, rewrite, Taken(end, OtherWay(v)).dest);
    var items := LoopPrinting.FunctionItems(order, loops);
    PrintedIsSound(items, |items|, blocks, rewrite);
    HasParts(code, place + 1, blocks[b].data, EndCode(end, out.uid + 1, rewrite, out.branchId));
    var at, phis := place + 1 + |blocks[b].data|, Taken(end, v).phis;
    forall stack, regs
      ensures Leads(code, AtEnd(end, at, v, stack, regs), State(target, stack, Sequential(phis, |phis|, regs)))
    {
      EndLeads(code, at, end, out.uid + 1, rewrite, out.branchId, v, target, other, stack, regs);
    }
    EdgeKeepsMeaningIff(code, at, end, out.uid + 1, rewrite, out.branchId, v, target, other);
  }

  // The successors are blocks of the function.
  ghost predicate Leaves(end: End, order: seq<nat>) {
    match end
    case Always(dest, _) => dest in order
    case Either(t, _, f, _) => t in order && f in order
  }
}
