// What acceptance of the exception tags of a list gives its clauses.
module SehAcceptance {
  import opened Bytes
  import opened Opcodes
  import opened Instructions
  import opened Relaxation
  import opened SehTags
  import opened SehClauses
  import opened Passes

  // ---- The passes keep the tags but for their offsets ----

  ghost predicate KeepsTag(a: Instr, b: Instr) {
    && (a.op == SEH <==> b.op == SEH)
    && (a.op == SEH ==> a.sehKind == b.sehKind && a.sehBegin == b.sehBegin)
  }

  lemma {:induction false} TagsKeepShape(a: seq<Instr>, b: seq<Instr>, k: nat)
    requires k <= |a| == |b| && forall i :: 0 <= i < |a| ==> KeepsTag(a[i], b[i])
    ensures SameShape(TagsTo(a, k), TagsTo(b, k))
  {
    hide TableRow;
    if k > 0 {
      TagsKeepShape(a, b, k - 1);
    }
  }

  lemma PeepholeKeepsTag(i: Instr, slots: Slots)
    requires i.operand.LocalOperand? ==> i.operand.v in slots
    ensures KeepsTag(i, Peephole(i, slots))
  {
    hide TableRow;
  }

  lemma ShorteningKeepsTag(a: Instr, b: Instr)
    requires KeptAs(a, b) || ShortOf(a, b)
    ensures KeepsTag(a, b)
  {
    if ShortOf(a, b) { RelPair(a.op); }
  }

  lemma PeepholeKeepsShape(code: seq<Instr>, slots: Slots)
    requires LocalsHaveSlots(code, slots)
    ensures SameShape(TagsOf(code), TagsOf(PeepholeAll(code, slots)))
  {
    hide TableRow, Peephole;
    var short := PeepholeAll(code, slots);
    forall i | 0 <= i < |code| ensures KeepsTag(code[i], short[i]) {
      PeepholeKeepsTag(code[i], slots);
    }
    TagsKeepShape(code, short, |code|);
  }

  lemma OptimizedKeepsShape(code: seq<Instr>, slots: Slots)
    requires LocalsHaveSlots(code, slots)
    ensures SameShape(TagsOf(PeepholeAll(code, slots)), TagsOf(Optimized(code, slots)))
  {
    hide TableRow, Peephole;
    var short, final := PeepholeAll(code, slots), Optimized(code, slots);
    LabelsOfIsIn(code);
    RelaxShortens(short, LabelsOf(code));
    forall i | 0 <= i < |short| ensures KeepsTag(short[i], final[i]) {
      ShorteningKeepsTag(short[i], final[i]);
    }
    TagsKeepShape(short, final, |short|);
  }

  // ---- Accepted lists have clauses ----

  // The last tag of the list ends a try block, and nothing encloses it.
  predicate EndsInTry(tags: seq<Tag>) {
    tags != [] && Validated(tags, 0) == Upto(|tags|) && tags[|tags| - 1].kind == SehTry
  }

  // After a successful Optimize the tags stand for blocks CompileSEH can
  // flatten, unless the list ends in a try block.
  lemma AcceptedHasClauses(code: seq<Instr>, slots: Slots)
    requires LocalsHaveSlots(code, slots) && SehStatus(PeepholeAll(code, slots)).Ok?
    ensures var tags := TagsOf(Optimized(code, slots));
            (exists bs :: StandsFor(tags, bs)) <==> !EndsInTry(tags)
  {
    hide TableRow, Peephole, Optimized, Validated, EpilogueAt, TagsTo, PeepholeAll, StandsFor;
    var before, tags := TagsOf(PeepholeAll(code, slots)), TagsOf(Optimized(code, slots));
    OptimizedKeepsShape(code, slots);
    if tags == [] {
      NothingStands();
    } else {
      ShapeValidates(before, tags, 0);
      AcceptedStandsFor(tags, Validated(tags, 0).next);
    }
  }

  lemma NothingStands()
    ensures StandsFor([], [])
  {
    NoTags();
  }

  // The clauses are those of a forest, one for each handler with its own
  // flags, exactly when each tag is followed well.
  lemma AcceptedIsForest(code: seq<Instr>, slots: Slots, bs: seq<Block>)
    requires LocalsHaveSlots(code, slots) && SehStatus(PeepholeAll(code, slots)).Ok?
    requires var tags := TagsOf(Optimized(code, slots)); tags != [] && StandsFor(tags, bs)
    ensures var tags := TagsOf(Optimized(code, slots));
            && Validated(tags, 0).Upto?
            && (Forest(bs) <==> forall i: nat :: i < Validated(tags, 0).next ==> FollowedWell(tags, Validated(tags, 0).next, i))
  {
    hide TableRow, Peephole, Optimized, Validated, EpilogueAt, TagsTo, PeepholeAll, FollowedWell, Forest, Compilable, FlatAll;
    var before, tags := TagsOf(PeepholeAll(code, slots)), TagsOf(Optimized(code, slots));
    OptimizedKeepsShape(code, slots);
    ShapeValidates(before, tags, 0);
    var r := Validated(tags, 0).next;
    ForestIffFollowed(tags, r);
    var group := GroupFound(tags, 0);
    assert tags[0..r] == tags[..r];
    FlatIsUnique(tags, 0, group, bs);
    if forest :| Forest(forest) && tags[..r] == FlatAll(forest) {
      FlatIsUnique(tags, 0, group, forest);
    }
  }

  // ---- Offsets of a laid out list ----

  lemma {:induction false} TagsRise(code: seq<Instr>, k: nat)
    requires OffsetsCurrent(code) && k <= |code|
    ensures Rising(TagsTo(code, k))
    ensures forall i :: 0 <= i < |TagsTo(code, k)| ==> 0 <= TagsTo(code, k)[i].offset <= SizeTo(code, k)
  {
    hide TableRow, Size;
    if k > 0 {
      TagsRise(code, k - 1);
      assert code[k - 1].offset == SizeTo(code, k - 1);
    }
  }

  lemma LayoutIsOrdered(code: seq<Instr>, bs: seq<Block>)
    requires OffsetsCurrent(code) && StandsFor(TagsOf(code), bs)
    ensures Ordered(bs, 0, SizeTo(code, |code|))
  {
    hide TableRow, SizeTo, Compilable, FlatAll, OffsetsCurrent, Ordered;
    TagsRise(code, |code|);
    RisingIsOrdered(TagsOf(code), 0, bs, 0, SizeTo(code, |code|));
  }

  // In the clause list of any body no clause follows one that it is inside
  // of, but for one whose try block has no code and whose handler is the
  // range it is inside of.
  lemma ClausesInnerFirst(code: seq<Instr>, bs: seq<Block>, p: nat, q: nat)
    requires OffsetsCurrent(code) && StandsFor(TagsOf(code), bs) && p < q < |ClausesFrom(bs, 0)|
    ensures var (earlier, later) := (ClausesFrom(bs, 0)[p], ClausesFrom(bs, 0)[q]);
            && (Inside(later, earlier) <==> Wraps(later, earlier))
            && (later.tryLength > 0 ==> !Inside(later, earlier))
  {
    hide TableRow, SizeTo, Compilable, FlatAll, OffsetsCurrent, Ordered, ClausesFrom;
    LayoutIsOrdered(code, bs);
    InnerFirst(bs, 0, 0, SizeTo(code, |code|), p, q);
  }

  // ---- An accepted list with an empty try block ----

  function Mark(kind: SehKind, begin: bool, offset: int): Instr {
    Instr(SEH, NoOperand, [], kind, begin, 0, offset, true)
  }

  function Leave(offset: int): Instr {
    Instr(LEAVE_S, LabelOperand("X"), [], SehTry, false, 0, offset, true)
  }

  // leave X, try { } catch { try { leave X } catch { } }, X:
  function EmptyTry(): seq<Instr> {
    [Leave(0), Mark(SehTry, true, 2), Mark(SehTry, false, 2), Mark(SehCatch, true, 2), Mark(SehTry, true, 2), Leave(2),
     Mark(SehTry, false, 4), Mark(SehCatch, true, 4), Mark(SehCatch, false, 4), Mark(SehCatch, false, 4)]
  }

  function EmptyTryBlocks(): seq<Block> {
    [Block(SehTry, 2, 0, [], 2, 0),
     Block(SehCatch, 2, 0, [Block(SehTry, 2, 0, [], 4, 0), Block(SehCatch, 4, 0, [], 4, 0)], 4, 0)]
  }

  function EmptyTryTags(): seq<Tag> {
    [Tag(SehTry, true, 2, 0), Tag(SehTry, false, 2, 0), Tag(SehCatch, true, 2, 0), Tag(SehTry, true, 2, 0),
     Tag(SehTry, false, 4, 0), Tag(SehCatch, true, 4, 0), Tag(SehCatch, false, 4, 0), Tag(SehCatch, false, 4, 0)]
  }

  // The check of the epilogues looks for a leave anywhere before the end of a
  // block, so blocks may be empty; here the outer clause comes behind the
  // inner one and is inside its try block.
  lemma EmptyTryAccepted()
    ensures SehStatus(EmptyTry()).Ok? && OffsetsCurrent(EmptyTry())
    ensures TagsOf(EmptyTry()) == EmptyTryTags() && StandsFor(EmptyTryTags(), EmptyTryBlocks())
    ensures ClausesFrom(EmptyTryBlocks(), 0) == [SEHData(EXCEPTION, 2, 2, 4, 0, 0), SEHData(EXCEPTION, 2, 0, 2, 2, 0)]
    ensures Inside(SEHData(EXCEPTION, 2, 0, 2, 2, 0), SEHData(EXCEPTION, 2, 2, 4, 0, 0))
  {
    hide TableRow, EmptyTry, EmptyTryBlocks, FlatAll, Validated, ClausesFrom, Compilable, EpilogueAt, TagsTo, StandsFor, OffsetsCurrent;
    EmptyTryIsRead();
    EmptyTryStands();
    EmptyTryClauses();
  }

  lemma EmptyTryStands()
    ensures StandsFor(EmptyTryTags(), EmptyTryBlocks()) && Compilable(EmptyTryBlocks()) && Validated(EmptyTryTags(), 0) == Upto(8)
  {
    EmptyTryIsGroup();
    var bs := EmptyTryBlocks();
    assert bs != [] && bs[|bs| - 1].kind == SehCatch;
    hide EmptyTryBlocks, FlatAll, Validated, Compilable, IsGroup;
    assert |EmptyTryTags()| == 8;
    GroupAccepted(EmptyTryTags(), 0, bs);
  }

  lemma EmptyTryIsRead()
    ensures TagsOf(EmptyTry()) == EmptyTryTags() && OffsetsCurrent(EmptyTry())
    ensures forall i :: 0 <= i < |EmptyTry()| ==> EpilogueAt(EmptyTry(), i)
  {
    EmptyTryTagsRead();
    EmptyTryLaidOut();
    EmptyTryEpilogues();
  }

  lemma EmptyTryTagsRead()
    ensures TagsOf(EmptyTry()) == EmptyTryTags()
  {
    SizesHere();
    hide TableRow, Size, IsPseudo;
    var code := EmptyTry();
    assert TagsTo(code, 1) == [];
    assert TagsTo(code, 3) == EmptyTryTags()[..2];
    assert TagsTo(code, 5) == EmptyTryTags()[..4];
    assert TagsTo(code, 6) == EmptyTryTags()[..4];
    assert TagsTo(code, 8) == EmptyTryTags()[..6];
    assert TagsTo(code, 10) == EmptyTryTags();
  }

  lemma EmptyTryLaidOut()
    ensures OffsetsCurrent(EmptyTry())
  {
    SizesHere();
    hide TableRow, Size, IsPseudo;
    var code := EmptyTry();
    assert SizeTo(code, 1) == 2;
    assert SizeTo(code, 3) == SizeTo(code, 2) == 2;
    assert SizeTo(code, 5) == SizeTo(code, 4) == 2;
    assert SizeTo(code, 6) == 4;
    assert SizeTo(code, 8) == SizeTo(code, 7) == 4;
    assert SizeTo(code, 9) == 4;
  }

  lemma EmptyTryEpilogues()
    ensures forall i :: 0 <= i < |EmptyTry()| ==> EpilogueAt(EmptyTry(), i)
  {
    SizesHere();
    hide TableRow, Size;
    var code := EmptyTry();
    hide IsPseudo;
    assert LastEmitted(code, 1) == Some(LEAVE_S);
    assert LastEmitted(code, 3) == LastEmitted(code, 2) == Some(LEAVE_S);
    assert LastEmitted(code, 6) == Some(LEAVE_S);
    assert LastEmitted(code, 8) == LastEmitted(code, 7) == Some(LEAVE_S);
    assert LastEmitted(code, 9) == Some(LEAVE_S);
  }

  lemma SizesHere()
    ensures forall kind, begin, offset :: Size(Mark(kind, begin, offset)) == 0 && IsPseudo(Mark(kind, begin, offset).op)
    ensures forall offset :: Size(Leave(offset)) == 2 && !IsPseudo(Leave(offset).op)
  {
  }

  lemma EmptyTryIsGroup()
    ensures IsGroup(EmptyTryBlocks()) && FlatAll(EmptyTryBlocks()) == EmptyTryTags()
    ensures Compilable(EmptyTryBlocks())
  {
    var bs := EmptyTryBlocks();
    var inner := bs[1].kids;
    assert inner[1..] == [inner[1]] && inner[1..][1..] == [];
    assert bs[1..] == [bs[1]] && bs[1..][1..] == [];
    assert FlatAll(inner[1..]) == [Tag(SehCatch, true, 4, 0), Tag(SehCatch, false, 4, 0)];
    assert FlatAll(inner) == EmptyTryTags()[3..7];
    assert FlatAll(bs[1..]) == EmptyTryTags()[2..];
    assert IsInner([]);
    assert AllInner(inner);
    assert IsGroup(inner);
    assert AllInner(bs);
  }

  lemma EmptyTryClauses()
    requires Compilable(EmptyTryBlocks())
    ensures ClausesFrom(EmptyTryBlocks(), 0) == [SEHData(EXCEPTION, 2, 2, 4, 0, 0), SEHData(EXCEPTION, 2, 0, 2, 2, 0)]
  {
    var bs := EmptyTryBlocks();
    var inner := bs[1].kids;
    assert ClausesFrom(inner, 2) == [] && ClausesFrom(bs, 2) == [];
    assert ClausesFrom(inner, 1) == [SEHData(EXCEPTION, 2, 2, 4, 0, 0)];
    assert ClausesFrom(bs, 1) == [SEHData(EXCEPTION, 2, 2, 4, 0, 0), SEHData(EXCEPTION, 2, 0, 2, 2, 0)];
  }
}
