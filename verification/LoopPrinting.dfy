// Printing a function by its loop nest: every block once, under one label.
module LoopPrinting {
  import opened Bytes

  type BlockId = nat

  // The blocks of a loop, its header first, include those of the loops in it.
  datatype Loop = Loop(blocks: seq<BlockId>, subloops: seq<Loop>)

  // ---- The loop forest ----

  ghost predicate DistinctBlocks(blocks: seq<BlockId>) {
    forall i, j :: 0 <= i < j < |blocks| ==> blocks[i] != blocks[j]
  }

  // Loops within these blocks: disjoint, and headed by a block of their own.
  ghost predicate Nested(blocks: seq<BlockId>, loops: seq<Loop>)
    decreases loops
  {
    && DistinctBlocks(blocks)
    && (forall i :: 0 <= i < |loops| ==> loops[i].blocks != [] && Nested(loops[i].blocks, loops[i].subloops))
    && (forall i :: 0 <= i < |loops| ==> HeaderIsOwn(loops[i]))
    && (forall i, b :: 0 <= i < |loops| && b in loops[i].blocks ==> b in blocks)
    && (forall i, j, b :: 0 <= i < j < |loops| && b in loops[i].blocks ==> b !in loops[j].blocks)
  }

  ghost predicate HeaderIsOwn(l: Loop)
    requires l.blocks != []
  {
    forall i :: 0 <= i < |l.subloops| ==> l.blocks[0] !in l.subloops[i].blocks
  }

  // The loop directly here that has the block.
  function SubOf(loops: seq<Loop>, b: BlockId): (r: Option<Loop>)
    ensures r.Some? ==> r.value in loops && b in r.value.blocks
    ensures r.None? ==> forall l :: l in loops ==> b !in l.blocks
  {
    if loops == [] then None else if b in loops[0].blocks then Some(loops[0]) else SubOf(loops[1..], b)
  }

  // The innermost loop that has the block.
  function LoopFor(loops: seq<Loop>, b: BlockId): Option<Loop>
    decreases loops
  {
    if loops == [] then None
    else if b in loops[0].blocks then
      match LoopFor(loops[0].subloops, b)
      case None => Some(loops[0])
      case Some(inner) => Some(inner)
    else LoopFor(loops[1..], b)
  }

  // ---- What is printed ----

  datatype Item = Mark(b: BlockId) | Body(b: BlockId) | Back(b: BlockId)

  function BlockItems(b: BlockId): seq<Item> { [Mark(b), Body(b)] }

  // A block of no loop here; or a whole loop, in the place of its header.
  function ItemsOf(loops: seq<Loop>, b: BlockId): seq<Item>
    decreases loops, 1
  {
    if loops == [] then BlockItems(b)
    else if b in loops[0].blocks then
      if loops[0].blocks[0] == b then LoopItems(loops[0]) else []
    else ItemsOf(loops[1..], b)
  }

  function ItemsTo(blocks: seq<BlockId>, loops: seq<Loop>, k: nat): seq<Item>
    requires k <= |blocks|
    decreases loops, 2, k
  {
    if k == 0 then [] else ItemsTo(blocks, loops, k - 1) + ItemsOf(loops, blocks[k - 1])
  }

  function LoopItems(l: Loop): seq<Item>
    requires l.blocks != []
    decreases l, 3
  {
    ItemsTo(l.blocks, l.subloops, |l.blocks|) + [Back(l.blocks[0])]
  }

  // ---- Every block is printed once ----

  // The block in whose place b is printed.
  function Place(loops: seq<Loop>, b: BlockId): BlockId {
    match SubOf(loops, b)
    case None => b
    case Some(l) => l.blocks[0]
  }

  function Once(c: bool): nat { if c then 1 else 0 }

  lemma {:induction false} ItemsOfSub(loops: seq<Loop>, b: BlockId)
    ensures ItemsOf(loops, b) == match SubOf(loops, b)
                                 case None => BlockItems(b)
                                 case Some(l) => if l.blocks[0] == b then LoopItems(l) else []
  {
    if loops != [] && b !in loops[0].blocks {
      ItemsOfSub(loops[1..], b);
    }
  }

  // The direct loop of a block is the only one here that has it.
  lemma {:induction false} SubIsUnique(blocks: seq<BlockId>, loops: seq<Loop>, l: Loop, b: BlockId)
    requires Nested(blocks, loops) && l in loops && b in l.blocks
    ensures SubOf(loops, b) == Some(l)
  {
    var found := SubOf(loops, b).value;
    var i :| 0 <= i < |loops| && loops[i] == found;
    var j :| 0 <= j < |loops| && loops[j] == l;
  }

  ghost predicate CountsOnce(items: seq<Item>, c: BlockId, n: nat) {
    multiset(items)[Mark(c)] == n && multiset(items)[Body(c)] == n
  }

  lemma {:induction false} CountsAdd(a: seq<Item>, b: seq<Item>, c: BlockId, m: nat, n: nat)
    requires CountsOnce(a, c, m) && CountsOnce(b, c, n)
    ensures CountsOnce(a + b, c, m + n)
  {
  }

  lemma {:induction false} LoopCounts(l: Loop, c: BlockId)
    requires l.blocks != [] && Nested(l.blocks, l.subloops)
    ensures CountsOnce(LoopItems(l), c, Once(c in l.blocks))
    decreases l, 3
  {
    hide CountsOnce, Nested, Place;
    ToCounts(l.blocks, l.subloops, |l.blocks|, c);
    if c in l.blocks {
      PlaceIsBlock(l.blocks, l.subloops, c);
    }
    assert l.blocks[..|l.blocks|] == l.blocks;
    BackCounts(l.blocks[0], c);
    CountsAdd(ItemsTo(l.blocks, l.subloops, |l.blocks|), [Back(l.blocks[0])], c, Once(c in l.blocks), 0);
  }

  lemma {:induction false} BackCounts(h: BlockId, c: BlockId)
    ensures CountsOnce([Back(h)], c, 0)
  {
  }

  lemma {:induction false} PlaceIsBlock(blocks: seq<BlockId>, loops: seq<Loop>, c: BlockId)
    requires Nested(blocks, loops) && c in blocks
    ensures Place(loops, c) in blocks
  {
    if SubOf(loops, c).Some? {
      var l := SubOf(loops, c).value;
      var i :| 0 <= i < |loops| && loops[i] == l;
      assert l.blocks[0] in loops[i].blocks;
    }
  }

  lemma {:induction false} ToCounts(blocks: seq<BlockId>, loops: seq<Loop>, k: nat, c: BlockId)
    requires Nested(blocks, loops) && k <= |blocks|
    ensures CountsOnce(ItemsTo(blocks, loops, k), c, Once(c in blocks && Place(loops, c) in blocks[..k]))
    decreases loops, 2, k
  {
    if k == 0 {
      assert ItemsTo(blocks, loops, 0) == [];
    } else {
      hide CountsOnce, Nested, Place;
      ToCounts(blocks, loops, k - 1, c);
      OneCounts(blocks, loops, blocks[k - 1], c);
      var before := c in blocks && Place(loops, c) in blocks[..k - 1];
      var now := c in blocks && Place(loops, c) == blocks[k - 1];
      CountsAdd(ItemsTo(blocks, loops, k - 1), ItemsOf(loops, blocks[k - 1]), c, Once(before), Once(now));
      InPrefix(blocks, k, Place(loops, c));
      NotBefore(blocks, loops, k - 1);
    }
  }

  lemma {:induction false} InPrefix(blocks: seq<BlockId>, k: nat, x: BlockId)
    requires 0 < k <= |blocks|
    ensures x in blocks[..k] <==> x in blocks[..k - 1] || x == blocks[k - 1]
  {
    assert blocks[..k] == blocks[..k - 1] + [blocks[k - 1]];
  }

  lemma {:induction false} NotBefore(blocks: seq<BlockId>, loops: seq<Loop>, k: nat)
    requires Nested(blocks, loops) && k < |blocks|
    ensures blocks[k] !in blocks[..k]
  {
  }

  lemma {:induction false} OneCounts(blocks: seq<BlockId>, loops: seq<Loop>, b: BlockId, c: BlockId)
    requires Nested(blocks, loops) && b in blocks
    ensures CountsOnce(ItemsOf(loops, b), c, Once(c in blocks && Place(loops, c) == b))
    decreases loops, 1
  {
    ItemsOfSub(loops, b);
    match SubOf(loops, b) {
      case None => OwnBlock(blocks, loops, b, c);
      case Some(l) =>
        LoopHere(blocks, loops, l);
        if l.blocks[0] == b {
          LoopCounts(l, c);
          if c in l.blocks {
            SubIsUnique(blocks, loops, l, c);
          } else if Place(loops, c) == b {
            OtherPlace(blocks, loops, l, c);
          }
        } else {
          InnerBlock(blocks, loops, l, b, c);
        }
    }
  }

  lemma {:induction false} LoopHere(blocks: seq<BlockId>, loops: seq<Loop>, l: Loop)
    requires Nested(blocks, loops) && l in loops
    ensures l.blocks != [] && Nested(l.blocks, l.subloops) && HeaderIsOwn(l)
    ensures forall b :: b in l.blocks ==> b in blocks
  {
    var i :| 0 <= i < |loops| && loops[i] == l;
  }

  lemma {:induction false} OwnBlock(blocks: seq<BlockId>, loops: seq<Loop>, b: BlockId, c: BlockId)
    requires Nested(blocks, loops) && b in blocks && SubOf(loops, b).None?
    ensures CountsOnce(BlockItems(b), c, Once(c in blocks && Place(loops, c) == b))
  {
    if SubOf(loops, c).Some? {
      var l := SubOf(loops, c).value;
      LoopHere(blocks, loops, l);
      assert l.blocks[0] in l.blocks;
    }
  }

  // A block of another loop, or of none, is not printed in this one's place.
  lemma {:induction false} OtherPlace(blocks: seq<BlockId>, loops: seq<Loop>, l: Loop, c: BlockId)
    requires Nested(blocks, loops) && l in loops && l.blocks != [] && c !in l.blocks
    ensures Place(loops, c) != l.blocks[0]
  {
    if SubOf(loops, c).Some? {
      var m := SubOf(loops, c).value;
      LoopHere(blocks, loops, m);
      if m.blocks[0] == l.blocks[0] {
        SubIsUnique(blocks, loops, m, m.blocks[0]);
        SubIsUnique(blocks, loops, l, l.blocks[0]);
      }
    }
  }

  lemma {:induction false} InnerBlock(blocks: seq<BlockId>, loops: seq<Loop>, l: Loop, b: BlockId, c: BlockId)
    requires Nested(blocks, loops) && l in loops && l.blocks != [] && b in l.blocks && b != l.blocks[0]
    ensures Place(loops, c) != b && CountsOnce([], c, 0)
  {
    if SubOf(loops, c).Some? {
      var m := SubOf(loops, c).value;
      LoopHere(blocks, loops, m);
      if m.blocks[0] == b {
        SubIsUnique(blocks, loops, m, b);
        SubIsUnique(blocks, loops, l, b);
      }
    } else if c == b {
      SubIsUnique(blocks, loops, l, b);
    }
  }

  function FunctionItems(blocks: seq<BlockId>, loops: seq<Loop>): seq<Item> { ItemsTo(blocks, loops, |blocks|) }

  // Over any loop forest, every block of the function is printed exactly once
  // under exactly one label.
  lemma {:induction false} EveryBlockOnce(blocks: seq<BlockId>, loops: seq<Loop>, c: BlockId)
    requires Nested(blocks, loops)
    ensures CountsOnce(FunctionItems(blocks, loops), c, Once(c in blocks))
  {
    hide CountsOnce, Nested, Place;
    ToCounts(blocks, loops, |blocks|, c);
    assert blocks[..|blocks|] == blocks;
    if c in blocks {
      PlaceIsBlock(blocks, loops, c);
    }
  }

  // A block that is in no loop, or heads the outermost loop it is in.
  ghost predicate HeadsItsLoop(loops: seq<Loop>, b: BlockId)
    requires forall l :: l in loops ==> l.blocks != []
  {
    match SubOf(loops, b) case None => true case Some(l) => l.blocks[0] == b
  }

  lemma {:induction false} FirstOfLoop(l: Loop, k: nat)
    requires l.blocks != [] && HeaderIsOwn(l) && 0 < k <= |l.blocks|
    ensures BlockItems(l.blocks[0]) <= ItemsTo(l.blocks, l.subloops, k)
    decreases k
  {
    if k == 1 {
      ItemsOfSub(l.subloops, l.blocks[0]);
      assert ItemsTo(l.blocks, l.subloops, 0) == [];
    } else {
      FirstOfLoop(l, k - 1);
    }
  }

  lemma {:induction false} FirstItems(blocks: seq<BlockId>, loops: seq<Loop>, k: nat)
    requires Nested(blocks, loops) && 0 < k <= |blocks|
    requires (forall l :: l in loops ==> l.blocks != []) && HeadsItsLoop(loops, blocks[0])
    ensures BlockItems(blocks[0]) <= ItemsTo(blocks, loops, k)
    decreases k
  {
    if k == 1 {
      ItemsOfSub(loops, blocks[0]);
      assert ItemsTo(blocks, loops, 0) == [];
      if SubOf(loops, blocks[0]).Some? {
        var l := SubOf(loops, blocks[0]).value;
        FirstOfLoop(l, |l.blocks|);
      }
    } else {
      FirstItems(blocks, loops, k - 1);
    }
  }

  // The function starts with its first block, which control enters it by.
  lemma {:induction false} EntryIsFirst(blocks: seq<BlockId>, loops: seq<Loop>)
    requires Nested(blocks, loops) && blocks != []
    requires (forall l :: l in loops ==> l.blocks != []) && HeadsItsLoop(loops, blocks[0])
    ensures [Mark(blocks[0]), Body(blocks[0])] <= FunctionItems(blocks, loops)
  {
    hide Nested, HeadsItsLoop;
    FirstItems(blocks, loops, |blocks|);
  }

  // ---- Blocks and their local variables ----

  type Value = nat

  // What printing an instruction does to the slots and labels: it loads or
  // stores values, it calls setjmp, or it prints a label of its own.
  datatype Event = Use(v: Value) | Setjmp | OwnLabel

  type Bodies = map<BlockId, seq<Event>>

  ghost predicate HasBodies(blocks: seq<BlockId>, bodies: Bodies) {
    forall b :: b in blocks ==> b in bodies
  }

  function JumpsIn(events: seq<Event>): nat {
    if events == [] then 0 else JumpsIn(events[..|events| - 1]) + if events[|events| - 1].Setjmp? then 1 else 0
  }

  // The setjmp calls of the bodies printed.
  function JumpsOf(items: seq<Item>, bodies: Bodies): nat {
    if items == [] then 0
    else
      var last := items[|items| - 1];
      JumpsOf(items[..|items| - 1], bodies)
      + if last.Body? && last.b in bodies then JumpsIn(bodies[last.b]) else 0
  }

  // The setjmp calls of the instructions of the first k blocks.
  function JumpsTo(blocks: seq<BlockId>, bodies: Bodies, k: nat): nat
    requires k <= |blocks| && HasBodies(blocks, bodies)
  {
    if k == 0 then 0 else JumpsTo(blocks, bodies, k - 1) + JumpsIn(bodies[blocks[k - 1]])
  }

  lemma {:induction false} JumpsOfAdd(a: seq<Item>, b: seq<Item>, bodies: Bodies)
    ensures JumpsOf(a + b, bodies) == JumpsOf(a, bodies) + JumpsOf(b, bodies)
    decreases |b|
  {
    if b == [] {
      assert a + b == a;
    } else {
      assert (a + b)[..|a + b| - 1] == a + b[..|b| - 1];
      JumpsOfAdd(a, b[..|b| - 1], bodies);
    }
  }

  function Bump(items: seq<Item>, bodies: Bodies, b: BlockId): nat
    requires b in bodies
  {
    multiset(items)[Body(b)] * JumpsIn(bodies[b])
  }

  // Summing over the printed items is summing over the blocks that occur in
  // them, as often as they occur.
  function Occurrences(items: seq<Item>, blocks: seq<BlockId>, bodies: Bodies, k: nat): nat
    requires k <= |blocks| && HasBodies(blocks, bodies)
  {
    if k == 0 then 0 else Occurrences(items, blocks, bodies, k - 1) + Bump(items, bodies, blocks[k - 1])
  }

  lemma {:induction false} NoOccurrences(blocks: seq<BlockId>, bodies: Bodies, k: nat)
    requires k <= |blocks| && HasBodies(blocks, bodies)
    ensures Occurrences([], blocks, bodies, k) == 0
  {
    if k > 0 {
      NoOccurrences(blocks, bodies, k - 1);
    }
  }

  lemma {:induction false} OneMore(items: seq<Item>, item: Item, blocks: seq<BlockId>, bodies: Bodies, k: nat)
    requires k <= |blocks| && HasBodies(blocks, bodies) && DistinctBlocks(blocks)
    ensures Occurrences(items + [item], blocks, bodies, k)
         == Occurrences(items, blocks, bodies, k)
            + if item.Body? && item.b in blocks[..k] then JumpsIn(bodies[item.b]) else 0
  {
    hide JumpsIn;
    if k > 0 {
      OneMore(items, item, blocks, bodies, k - 1);
      var b := blocks[k - 1];
      InPrefix(blocks, k, if item.Body? then item.b else b);
      BumpOnce(items, item, bodies, b);
      assert b !in blocks[..k - 1];
    }
  }

  lemma {:induction false} BumpOnce(items: seq<Item>, item: Item, bodies: Bodies, b: BlockId)
    requires b in bodies
    ensures Bump(items + [item], bodies, b) == Bump(items, bodies, b) + if item == Body(b) then JumpsIn(bodies[b]) else 0
  {
    var n := multiset(items)[Body(b)];
    if item == Body(b) {
      assert multiset(items + [item])[Body(b)] == n + 1;
      Distribute(n, JumpsIn(bodies[b]));
    } else {
      assert multiset(items + [item])[Body(b)] == n;
    }
  }

  lemma {:induction false} Distribute(n: nat, x: nat)
    ensures (n + 1) * x == n * x + x
  {
  }

  lemma {:induction false} JumpsAreOccurrences(items: seq<Item>, blocks: seq<BlockId>, bodies: Bodies)
    requires HasBodies(blocks, bodies) && DistinctBlocks(blocks)
    requires forall i :: 0 <= i < |items| && items[i].Body? ==> items[i].b in blocks
    ensures JumpsOf(items, bodies) == Occurrences(items, blocks, bodies, |blocks|)
    decreases |items|
  {
    hide JumpsIn, Occurrences;
    if items == [] {
      NoOccurrences(blocks, bodies, |blocks|);
    } else {
      var front, last := items[..|items| - 1], items[|items| - 1];
      assert items == front + [last];
      JumpsAreOccurrences(front, blocks, bodies);
      OneMore(front, last, blocks, bodies, |blocks|);
      assert blocks[..|blocks|] == blocks;
    }
  }

  lemma {:induction false} OnceEach(items: seq<Item>, blocks: seq<BlockId>, bodies: Bodies, k: nat)
    requires k <= |blocks| && HasBodies(blocks, bodies)
    requires forall b :: b in blocks ==> multiset(items)[Body(b)] == 1
    ensures Occurrences(items, blocks, bodies, k) == JumpsTo(blocks, bodies, k)
  {
    hide JumpsIn;
    if k > 0 {
      OnceEach(items, blocks, bodies, k - 1);
      assert blocks[k - 1] in blocks;
    }
  }

  // Printing makes exactly the setjmp calls that were counted beforehand.
  lemma {:induction false} JumpsAreCounted(blocks: seq<BlockId>, loops: seq<Loop>, bodies: Bodies)
    requires Nested(blocks, loops) && HasBodies(blocks, bodies)
    ensures JumpsOf(FunctionItems(blocks, loops), bodies) == JumpsTo(blocks, bodies, |blocks|)
  {
    hide JumpsOf, JumpsTo, ItemsTo, Occurrences;
    var items := FunctionItems(blocks, loops);
    forall c ensures CountsOnce(items, c, Once(c in blocks)) {
      EveryBlockOnce(blocks, loops, c);
    }
    forall i | 0 <= i < |items| && items[i].Body? ensures items[i].b in blocks {
      assert items[i] in multiset(items);
    }
    JumpsAreOccurrences(items, blocks, bodies);
    OnceEach(items, blocks, bodies, |blocks|);
  }
}
