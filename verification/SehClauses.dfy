// Flattening nested protected blocks into the clause list of a method body.
module SehClauses {
  import opened Bytes
  import opened Instructions
  import opened SehTags

  const EXCEPTION := 0
  const FILTER := 1
  const FINALLY := 2
  const FAULT := 4

  // extra is the union of class token and filter offset.
  datatype SEHData = SEHData(flags: int, tryOffset: int, tryLength: int,
                             handlerOffset: int, handlerLength: int, extra: int)

  // What CompileSEH can walk over: a try block comes first, a filter body
  // holds no block and is followed by its handler.
  ghost predicate Compilable(bs: seq<Block>) {
    && (bs != [] ==> bs[0].kind == SehTry)
    && (forall i {:trigger bs[i]} :: 0 <= i < |bs| ==> FilterPlaced(bs, i) && Compilable(bs[i].kids))
  }

  predicate FilterPlaced(bs: seq<Block>, i: nat)
    requires i < |bs|
  {
    bs[i].kind == SehFilter ==> i + 1 < |bs| && bs[i + 1].kind == SehFilterHandler && bs[i].kids == []
  }

  // What the tags should stand for: nested and sibling try blocks, each with
  // a handler, and a filter before each filter handler.
  ghost predicate Forest(bs: seq<Block>) {
    && (bs != [] ==> bs[0].kind == SehTry)
    && (forall i {:trigger bs[i]} :: 0 <= i < |bs| ==> PlacedWell(bs, i) && Forest(bs[i].kids))
  }

  predicate PlacedWell(bs: seq<Block>, i: nat)
    requires i < |bs|
  {
    && (bs[i].kind == SehTry ==> i + 1 < |bs| && bs[i + 1].kind != SehTry)
    && FilterPlaced(bs, i)
    && (bs[i].kind == SehFilterHandler ==> i > 0 && bs[i - 1].kind == SehFilter)
  }

  lemma {:induction false} ForestIsCompilable(bs: seq<Block>)
    requires Forest(bs)
    ensures Compilable(bs)
  {
    forall i | 0 <= i < |bs| ensures FilterPlaced(bs, i) && Compilable(bs[i].kids) {
      ForestIsCompilable(bs[i].kids);
    }
  }

  // ---- The clauses the blocks stand for ----

  // The try block that block i protects or is.
  function Guard(bs: seq<Block>, i: nat): (g: nat)
    requires i < |bs| && bs[0].kind == SehTry
    ensures g <= i && bs[g].kind == SehTry
    ensures forall j :: g < j <= i ==> bs[j].kind != SehTry
  {
    if bs[i].kind == SehTry then i else Guard(bs, i - 1)
  }

  // What the union holds once block i has been seen: a finally or fault
  // handler keeps what its elder brothers left there.
  function Extra(bs: seq<Block>, i: nat): int
    requires i < |bs| && bs[0].kind == SehTry
  {
    match bs[i].kind
    case SehTry => 0
    case SehCatch => bs[i].token
    case SehFilter => bs[i].start
    case _ => Extra(bs, i - 1)
  }

  function Flags(kind: SehKind): int {
    match kind
    case SehFilterHandler => FILTER
    case SehFinally => FINALLY
    case SehFault => FAULT
    case _ => EXCEPTION
  }

  // The flags once block i has been seen: a filter handler keeps those of the
  // block before it, which should be its filter.
  function FlagsAt(bs: seq<Block>, i: nat): int
    requires i < |bs| && bs[0].kind == SehTry
  {
    match bs[i].kind
    case SehTry => EXCEPTION
    case SehFilter => FILTER
    case SehFilterHandler => FlagsAt(bs, i - 1)
    case kind => Flags(kind)
  }

  predicate IsHandler(b: Block) { b.kind != SehTry && b.kind != SehFilter }

  function OwnClause(bs: seq<Block>, i: nat): seq<SEHData>
    requires i < |bs| && bs[0].kind == SehTry
  {
    if !IsHandler(bs[i]) then []
    else
      var t := bs[Guard(bs, i)];
      [SEHData(FlagsAt(bs, i), t.start, t.stop - t.start, bs[i].start, bs[i].stop - bs[i].start, Extra(bs, i))]
  }

  // The flag values of section II.25.4.6 of ECMA-335.
  function StandardFlags(kind: SehKind): int {
    match kind
    case SehFilterHandler => 0x0001
    case SehFinally => 0x0002
    case SehFault => 0x0004
    case _ => 0x0000
  }

  // In a forest the clause of a handler has the flags of its own kind, the
  // range of the try block next before it among its brothers and its own
  // range; a catch has its class token, a filter handler the offset of the
  // filter right before it.
  lemma {:induction false} FlagsAreRight(bs: seq<Block>, i: nat, try: nat)
    requires Forest(bs) && try < i < |bs| && IsHandler(bs[i])
    requires bs[try].kind == SehTry && forall j :: try < j < i ==> bs[j].kind != SehTry
    ensures |OwnClause(bs, i)| == 1
    ensures var clause := OwnClause(bs, i)[0];
            && clause.flags == StandardFlags(bs[i].kind)
            && clause.tryOffset == bs[try].start && clause.tryOffset + clause.tryLength == bs[try].stop
            && clause.handlerOffset == bs[i].start && clause.handlerOffset + clause.handlerLength == bs[i].stop
            && (bs[i].kind == SehCatch ==> clause.extra == bs[i].token)
            && (bs[i].kind == SehFilterHandler ==> bs[i - 1].kind == SehFilter && clause.extra == bs[i - 1].start)
  {
    assert PlacedWell(bs, i);
    GuardIsNearest(bs, i, try);
    if bs[i].kind == SehFilterHandler {
      assert FlagsAt(bs, i - 1) == FILTER && Extra(bs, i - 1) == bs[i - 1].start;
    }
  }

  lemma {:induction false} GuardIsNearest(bs: seq<Block>, i: nat, try: nat)
    requires try <= i < |bs| && bs[0].kind == SehTry && bs[try].kind == SehTry
    requires forall j :: try < j <= i ==> bs[j].kind != SehTry
    ensures Guard(bs, i) == try
  {
    assert bs[Guard(bs, i)].kind == SehTry;
  }

  // Block by block: the clauses nested inside it, then its own.
  function ClausesFrom(bs: seq<Block>, i: nat): seq<SEHData>
    requires i <= |bs| && Compilable(bs)
    decreases bs, |bs| - i
  {
    if i == |bs| then []
    else ClausesFrom(bs[i].kids, 0) + OwnClause(bs, i) + ClausesFrom(bs, i + 1)
  }

  // ---- CompileSEH ----

  lemma {:induction false} FlatAt(tags: seq<Tag>, o: nat, bs: seq<Block>, j: nat)
    requires j < |bs| && StandsAt(tags, o, FlatAll(bs[j..]))
    ensures var b := bs[j];
            var n := |FlatAll(b.kids)|;
            && |FlatAll(bs[j..])| == n + 2 + |FlatAll(bs[j + 1..])|
            && o + n + 2 + |FlatAll(bs[j + 1..])| <= |tags|
            && tags[o] == Tag(b.kind, true, b.start, b.token)
            && StandsAt(tags, o + 1, FlatAll(b.kids))
            && tags[o + 1 + n] == Tag(b.kind, false, b.stop, b.stopToken)
            && StandsAt(tags, o + n + 2, FlatAll(bs[j + 1..]))
  {
    hide Flat, FlatAll;
    FirstOfFlat(tags, o, bs[j..]);
    assert bs[j..][1..] == bs[j + 1..];
  }

  // Nothing, or the clauses of a group, up to the tag at `end`.
  method CompileNested(tags: seq<Tag>, offset: nat, data: seq<SEHData>, ghost kids: seq<Block>)
    returns (next: nat, more: seq<SEHData>)
    requires Compilable(kids) && StandsAt(tags, offset, FlatAll(kids))
    requires offset + |FlatAll(kids)| < |tags| && !tags[offset + |FlatAll(kids)|].begin
    ensures next == offset + |FlatAll(kids)|
    ensures more == data + ClausesFrom(kids, 0)
    decreases kids, |kids|, 1
  {
    hide Flat, FlatAll;
    ghost var end := offset + |FlatAll(kids)|;
    assert kids[0..] == kids;
    next, more := offset, data;
    if kids == [] { NoTags(); }
    while next < |tags| && tags[next].begin
      invariant (next == offset && more == data) || (next == end && more == data + ClausesFrom(kids, 0))
      decreases end - next
    {
      if kids != [] { FlatAt(tags, next, kids, 0); }
      next, more := CompileSEH(tags, next, more, kids, 0);
    }
    if kids != [] { FlatAt(tags, offset, kids, 0); }
  }

  lemma {:induction false} NoTags()
    ensures FlatAll([]) == [] && |FlatAll([])| == 0
  {
  }

  // The handler at offset, whose flags and union are already set.
  method CompileHandler(tags: seq<Tag>, offset: nat, started: SEHData, data: seq<SEHData>,
                        ghost bs: seq<Block>, ghost k: nat, ghost j: nat)
    returns (next: nat, current: SEHData, more: seq<SEHData>)
    requires Compilable(bs) && k < j < |bs| && IsHandler(bs[j]) && bs[k].kind == SehTry
    requires forall i :: k < i <= j ==> bs[i].kind != SehTry
    requires StandsAt(tags, offset, FlatAll(bs[j..]))
    requires started.flags == FlagsAt(bs, j) && started.extra == Extra(bs, j)
    requires started.tryOffset == bs[k].start && started.tryLength == bs[k].stop - bs[k].start
    ensures StandsAt(tags, next, FlatAll(bs[j + 1..]))
    ensures next + |FlatAll(bs[j + 1..])| == offset + |FlatAll(bs[j..])|
    ensures if j + 1 == |bs| then next == offset + |FlatAll(bs[j..])| else next < |tags| && tags[next].begin
    ensures current == started.(handlerOffset := current.handlerOffset, handlerLength := current.handlerLength)
    ensures more + ClausesFrom(bs, j + 1) == data + ClausesFrom(bs, j)
    decreases bs, |bs| - j, 0
  {
    hide Flat, FlatAll, ClausesFrom, OwnClause, Compilable, FilterPlaced, FlagsAt, Guard, StandsAt, Extra;
    FlatAt(tags, offset, bs, j);
    CompilableAt(bs, j);
    next, current, more := offset, started, data;
    if next < |tags| {
      current := current.(handlerOffset := tags[next].offset);
      next, more := CompileNested(tags, next + 1, more, bs[j].kids);
      if next < |tags| {
        current := current.(handlerLength := tags[next].offset - current.handlerOffset);
        OwnClauseIs(bs, k, j, current);
        OneMoreBlock(data, bs, j);
        more := more + [current];
      }
      next := next + 1;
    }
    BlockStart(tags, next, bs, j + 1, offset + |FlatAll(bs[j..])|);
  }

  // A filter block and the handler behind it make one handler.
  ghost function HandlerOf(bs: seq<Block>, j: nat): nat
    requires j < |bs|
  {
    if bs[j].kind == SehFilter then j + 1 else j
  }

  lemma {:induction false} SkipsFilter(bs: seq<Block>, j: nat, data: seq<SEHData>)
    requires Compilable(bs) && j < |bs| && bs[j].kind != SehTry
    ensures HandlerOf(bs, j) < |bs| && IsHandler(bs[HandlerOf(bs, j)])
    ensures data + ClausesFrom(bs, HandlerOf(bs, j)) == data + ClausesFrom(bs, j)
  {
    hide ClausesFrom;
    CompilableAt(bs, j);
    if bs[j].kind == SehFilter {
      NoClauseOfTheirOwn(data, bs, j);
      EndClauses(bs[j].kids, data);
    }
  }

  // Sets the flags and the union; steps over a filter body.
  method StartHandler(tags: seq<Tag>, offset: nat, started: SEHData, ghost bs: seq<Block>, ghost j: nat)
    returns (next: nat, current: SEHData)
    requires Compilable(bs) && 0 < j < |bs| && bs[j].kind != SehTry
    requires StandsAt(tags, offset, FlatAll(bs[j..]))
    requires started.flags == FlagsAt(bs, j - 1) && started.extra == Extra(bs, j - 1)
    ensures var h := HandlerOf(bs, j);
            && h < |bs|
            && StandsAt(tags, next, FlatAll(bs[h..]))
            && next + |FlatAll(bs[h..])| == offset + |FlatAll(bs[j..])|
            && current == started.(flags := FlagsAt(bs, h), extra := Extra(bs, h))
  {
    hide Flat, FlatAll, Compilable, FilterPlaced, FlagsAt, StandsAt, Extra;
    FlatAt(tags, offset, bs, j);
    CompilableAt(bs, j);
    ExtraAt(bs, j);
    NoTags();
    next, current := offset, started;
    match tags[offset].kind {
      case SehFilter =>
        ExtraAt(bs, j + 1);
        current := current.(extra := tags[offset].offset);
        next := next + 2;
        current := current.(flags := FILTER);
      case SehCatch =>
        current := current.(extra := tags[offset].token, flags := EXCEPTION);
      case SehFault =>
        current := current.(flags := FAULT);
      case SehFinally =>
        current := current.(flags := FINALLY);
      case _ =>
    }
  }

  // The handlers of try block k and whatever follows them.
  method CompileHandlers(tags: seq<Tag>, start: nat, tried: SEHData, data: seq<SEHData>, ghost bs: seq<Block>, ghost k: nat)
    returns (next: int, more: seq<SEHData>)
    requires Compilable(bs) && k < |bs| && bs[k].kind == SehTry
    requires StandsAt(tags, start, FlatAll(bs[k + 1..])) && Closes(tags, start + |FlatAll(bs[k + 1..])|)
    requires start < |tags| && NotPastEnd(tags, start + |FlatAll(bs[k + 1..])|, bs)
    requires tried.tryOffset == bs[k].start && tried.tryLength == bs[k].stop - bs[k].start
    requires tried.flags == FlagsAt(bs, k) && tried.extra == Extra(bs, k)
    ensures next == if start + |FlatAll(bs[k + 1..])| == |tags| then 1 else start + |FlatAll(bs[k + 1..])|
    ensures more == data + ClausesFrom(bs, k + 1)
    decreases bs, |bs| - k - 1, 1
  {
    hide Flat, FlatAll, ClausesFrom, OwnClause, Compilable, FilterPlaced, FlagsAt, Guard, StandsAt, Extra;
    ghost var end := start + |FlatAll(bs[k + 1..])|;
    CompilableAt(bs, k);
    BlockStart(tags, start, bs, k + 1, end);
    ghost var j := k + 1;
    var offset: nat := start;
    var current := tried;
    more := data;
    while true
      invariant k < j <= |bs| && offset < |tags| && (j == |bs| ==> offset == end)
      invariant StandsAt(tags, offset, FlatAll(bs[j..])) && offset + |FlatAll(bs[j..])| == end
      invariant j < |bs| ==> tags[offset].begin
      invariant forall i :: k < i < j ==> bs[i].kind != SehTry
      invariant current.tryOffset == bs[k].start && current.tryLength == bs[k].stop - bs[k].start
      invariant current.flags == FlagsAt(bs, j - 1) && current.extra == Extra(bs, j - 1)
      invariant more + ClausesFrom(bs, j) == data + ClausesFrom(bs, k + 1)
      decreases |bs| - j
    {
      if !tags[offset].begin { NoTags(); EndClauses(bs, more); return offset, more; }
      FlatAt(tags, offset, bs, j);
      if tags[offset].kind == SehTry {
        next, more := CompileSEH(tags, offset, more, bs, j);
        return;
      }
      SkipsFilter(bs, j, more);
      offset, current := StartHandler(tags, offset, current, bs, j);
      j := HandlerOf(bs, j);
      CompilableAt(bs, j);
      offset, current, more := CompileHandler(tags, offset, current, more, bs, k, j);
      j := j + 1;
      if offset >= |tags| { break; }
    }
    NoTags();
    EndClauses(bs, more);
    return 1, more;
  }

  // The code looks at what follows a try block without asking whether there
  // is anything.
  predicate NotPastEnd(tags: seq<Tag>, end: nat, bs: seq<Block>)
    requires bs != []
  {
    end == |tags| ==> bs[|bs| - 1].kind != SehTry
  }

  method CompileSEH(tags: seq<Tag>, start: nat, data: seq<SEHData>, ghost bs: seq<Block>, ghost k: nat)
    returns (next: int, more: seq<SEHData>)
    requires Compilable(bs) && k < |bs| && bs[k].kind == SehTry
    requires StandsAt(tags, start, FlatAll(bs[k..])) && Closes(tags, start + |FlatAll(bs[k..])|)
    requires NotPastEnd(tags, start + |FlatAll(bs[k..])|, bs)
    ensures next == if start + |FlatAll(bs[k..])| == |tags| then 1 else start + |FlatAll(bs[k..])|
    ensures more == data + ClausesFrom(bs, k)
    decreases bs, |bs| - k, 0
  {
    hide Flat, FlatAll, ClausesFrom, OwnClause, Compilable, FilterPlaced, FlagsAt, Guard, StandsAt, Extra;
    ghost var end := start + |FlatAll(bs[k..])|;
    FlatAt(tags, start, bs, k);
    CompilableAt(bs, k);
    ExtraAt(bs, k);
    var offset: nat := start;
    if !tags[offset].begin || tags[offset].kind != SehTry { return 1, data; }
    var current := SEHData(EXCEPTION, tags[offset].offset, 0, 0, 0, 0);
    offset, more := CompileNested(tags, offset + 1, data, bs[k].kids);
    if offset < |tags| && tags[offset].kind == SehTry {
      current := current.(tryLength := tags[offset].offset - current.tryOffset);
      offset := offset + 1;
    } else {
      return offset + 1, more;
    }
    NoClauseOfTheirOwn(data, bs, k);
    BlockStart(tags, offset, bs, k + 1, end);
    next, more := CompileHandlers(tags, offset, current, more, bs, k);
  }

  lemma {:induction false} CompilableAt(bs: seq<Block>, j: nat)
    requires Compilable(bs) && j < |bs|
    ensures FilterPlaced(bs, j) && Compilable(bs[j].kids) && bs[0].kind == SehTry
  {
  }

  lemma {:induction false} ExtraAt(bs: seq<Block>, j: nat)
    requires j < |bs| && bs[0].kind == SehTry
    ensures Extra(bs, j) == if bs[j].kind == SehTry then 0 else if bs[j].kind == SehCatch then bs[j].token
                            else if bs[j].kind == SehFilter then bs[j].start else Extra(bs, j - 1)
    ensures FlagsAt(bs, j) == if bs[j].kind == SehFilter then FILTER
                              else if bs[j].kind == SehFilterHandler then FlagsAt(bs, j - 1) else Flags(bs[j].kind)
  {
  }

  lemma {:induction false} EndClauses(bs: seq<Block>, data: seq<SEHData>)
    requires Compilable(bs)
    ensures data + ClausesFrom(bs, |bs|) == data
  {
  }

  lemma {:induction false} OneMoreBlock(data: seq<SEHData>, bs: seq<Block>, j: nat)
    requires Compilable(bs) && j < |bs|
    ensures data + ClausesFrom(bs, j)
         == (data + ClausesFrom(bs[j].kids, 0) + OwnClause(bs, j)) + ClausesFrom(bs, j + 1)
  {
  }

  lemma {:induction false} NoClauseOfTheirOwn(data: seq<SEHData>, bs: seq<Block>, j: nat)
    requires Compilable(bs) && j < |bs| && !IsHandler(bs[j])
    ensures data + ClausesFrom(bs, j) == (data + ClausesFrom(bs[j].kids, 0)) + ClausesFrom(bs, j + 1)
  {
    OneMoreBlock(data, bs, j);
  }

  lemma {:induction false} OwnClauseIs(bs: seq<Block>, k: nat, j: nat, c: SEHData)
    requires Compilable(bs) && k < j < |bs| && IsHandler(bs[j]) && bs[k].kind == SehTry
    requires forall i :: k < i <= j ==> bs[i].kind != SehTry
    requires c.flags == FlagsAt(bs, j) && c.extra == Extra(bs, j)
    requires c.tryOffset == bs[k].start && c.tryLength == bs[k].stop - bs[k].start
    requires c.handlerOffset == bs[j].start && c.handlerLength == bs[j].stop - bs[j].start
    ensures OwnClause(bs, j) == [c]
  {
    assert Guard(bs, j) == k;
  }

  lemma {:induction false} BlockStart(tags: seq<Tag>, o: nat, bs: seq<Block>, j: nat, end: nat)
    requires j <= |bs| && StandsAt(tags, o, FlatAll(bs[j..])) && o + |FlatAll(bs[j..])| == end
    ensures j == |bs| ==> o == end
    ensures j < |bs| ==> o < |tags| && tags[o].begin
  {
    hide Flat;
    if j < |bs| { FlatAt(tags, o, bs, j); } else { NoTags(); assert bs[j..] == []; }
  }

  // ---- Inner clauses come first ----

  // Offsets as a layout gives them: blocks may touch, and may be empty.
  ghost predicate Ordered(bs: seq<Block>, lo: int, hi: int) {
    && (forall i {:trigger bs[i]} :: 0 <= i < |bs| ==>
          lo <= bs[i].start <= bs[i].stop <= hi && Ordered(bs[i].kids, bs[i].start, bs[i].stop))
    && (forall i, j :: 0 <= i < j < |bs| ==> bs[i].stop <= bs[j].start)
  }

  // Both ranges begin in a region and do not leave it.
  predicate LiesIn(a: SEHData, lo: int, hi: int) {
    && lo <= a.tryOffset < hi && a.tryOffset + a.tryLength <= hi
    && lo <= a.handlerOffset < hi && a.handlerOffset + a.handlerLength <= hi
  }

  // a lies in the try block or in the handler that b describes.
  predicate Inside(a: SEHData, b: SEHData) {
    || LiesIn(a, b.tryOffset, b.tryOffset + b.tryLength)
    || LiesIn(a, b.handlerOffset, b.handlerOffset + b.handlerLength)
  }

  // The one way in which a can be inside b and follow it: the try block of a
  // has no code, and its handler is exactly one of the ranges of b.
  predicate Wraps(a: SEHData, b: SEHData) {
    && a.tryLength == 0 && a.tryOffset == a.handlerOffset && a.handlerLength > 0
    && ((a.handlerOffset == b.tryOffset && a.handlerLength == b.tryLength)
        || (a.handlerOffset == b.handlerOffset && a.handlerLength == b.handlerLength))
  }

  lemma {:induction false} ClausesLieIn(bs: seq<Block>, i: nat, lo: int, hi: int, c: SEHData)
    requires Compilable(bs) && Ordered(bs, lo, hi) && i < |bs| && c in ClausesFrom(bs, i)
    ensures lo <= c.tryOffset <= c.tryOffset + c.tryLength <= c.handlerOffset
    ensures bs[i].start <= c.handlerOffset <= c.handlerOffset + c.handlerLength <= hi
    decreases bs, |bs| - i
  {
    SplitClauses(bs, i);
    hide ClausesFrom, OwnClause, Compilable;
    if c in ClausesFrom(bs[i].kids, 0) {
      SplitClauses(bs[i].kids, 0);
      ClausesLieIn(bs[i].kids, 0, bs[i].start, bs[i].stop, c);
    } else if c in OwnClause(bs, i) {
      OwnLiesIn(bs, i, lo, hi, c);
    } else {
      SplitClauses(bs, i + 1);
      ClausesLieIn(bs, i + 1, lo, hi, c);
    }
  }

  lemma {:induction false} OwnLiesIn(bs: seq<Block>, i: nat, lo: int, hi: int, c: SEHData)
    requires Compilable(bs) && Ordered(bs, lo, hi) && i < |bs| && c in OwnClause(bs, i)
    ensures lo <= c.tryOffset <= c.tryOffset + c.tryLength <= c.handlerOffset
    ensures bs[i].start == c.handlerOffset && c.handlerOffset + c.handlerLength == bs[i].stop <= hi
    ensures bs[i].start <= bs[i].stop
  {
    hide Extra, FlagsAt, Compilable;
  }

  lemma {:induction false} SplitClauses(bs: seq<Block>, i: nat)
    requires Compilable(bs) && i <= |bs|
    ensures i == |bs| ==> ClausesFrom(bs, i) == []
    ensures i < |bs| ==> Compilable(bs[i].kids) && bs[0].kind == SehTry
                         && ClausesFrom(bs, i) == ClausesFrom(bs[i].kids, 0) + OwnClause(bs, i) + ClausesFrom(bs, i + 1)
  {
    hide OwnClause;
  }

  lemma {:induction false} EndsWithinBlock(bs: seq<Block>, i: nat, lo: int, hi: int, b: SEHData)
    requires Compilable(bs) && Ordered(bs, lo, hi) && i < |bs|
    requires b in ClausesFrom(bs[i].kids, 0) || b in OwnClause(bs, i)
    ensures b.tryOffset + b.tryLength <= bs[i].stop && b.handlerOffset + b.handlerLength <= bs[i].stop
  {
    hide ClausesFrom, Extra, FlagsAt;
    if b in ClausesFrom(bs[i].kids, 0) {
      assert bs[i].kids != [] by { EndClauses(bs[i].kids, []); }
      ClausesLieIn(bs[i].kids, 0, bs[i].start, bs[i].stop, b);
    }
  }

  // A clause of a later block is not inside one of block i.
  lemma {:induction false} LaterIsOutside(bs: seq<Block>, i: nat, lo: int, hi: int, a: SEHData, b: SEHData)
    requires Compilable(bs) && Ordered(bs, lo, hi) && i < |bs|
    requires b in ClausesFrom(bs[i].kids, 0) || b in OwnClause(bs, i)
    requires a in ClausesFrom(bs, i + 1)
    ensures !Inside(a, b)
  {
    hide ClausesFrom, Extra, FlagsAt, OwnClause, Compilable;
    EndClauses(bs, []);
    ClausesLieIn(bs, i + 1, lo, hi, a);
    EndsWithinBlock(bs, i, lo, hi, b);
  }

  lemma {:induction false} OwnOnlyWraps(bs: seq<Block>, i: nat, lo: int, hi: int, a: SEHData, b: SEHData)
    requires Compilable(bs) && Ordered(bs, lo, hi) && i < |bs|
    requires a in OwnClause(bs, i) && b in ClausesFrom(bs[i].kids, 0)
    ensures Inside(a, b) ==> Wraps(a, b)
  {
    hide ClausesFrom, Extra, FlagsAt;
    assert bs[i].kids != [] by { EndClauses(bs[i].kids, []); }
    ClausesLieIn(bs[i].kids, 0, bs[i].start, bs[i].stop, b);
  }

  // No clause is listed after one whose try block or handler contains it, as
  // section I.12.4.2 of ECMA-335 asks, except one that wraps it.
  lemma {:induction false} InnerFirst(bs: seq<Block>, i: nat, lo: int, hi: int, p: nat, q: nat)
    requires Compilable(bs) && Ordered(bs, lo, hi) && i <= |bs|
    requires p < q < |ClausesFrom(bs, i)|
    ensures Inside(ClausesFrom(bs, i)[q], ClausesFrom(bs, i)[p]) <==> Wraps(ClausesFrom(bs, i)[q], ClausesFrom(bs, i)[p])
    decreases bs, |bs| - i
  {
    hide Inside, OwnClause, Wraps, ClausesFrom, Compilable;
    WrapsIsInside(ClausesFrom(bs, i)[q], ClausesFrom(bs, i)[p]);
    SplitClauses(bs, i);
    var inner, own, rest := ClausesFrom(bs[i].kids, 0), OwnClause(bs, i), ClausesFrom(bs, i + 1);
    var upTo := inner + own;
    assert ClausesFrom(bs, i) == upTo + rest;
    assert |own| <= 1 by { AtMostOne(bs, i); }
    if q < |inner| {
      InnerFirst(bs[i].kids, 0, bs[i].start, bs[i].stop, p, q);
    } else if p >= |upTo| {
      InnerFirst(bs, i + 1, lo, hi, p - |upTo|, q - |upTo|);
    } else {
      assert upTo[p] in inner || upTo[p] in own;
      var a := ClausesFrom(bs, i)[q];
      if q < |upTo| {
        OwnOnlyWraps(bs, i, lo, hi, a, upTo[p]);
      } else {
        LaterIsOutside(bs, i, lo, hi, a, upTo[p]);
      }
    }
  }

  lemma WrapsIsInside(a: SEHData, b: SEHData)
    ensures Wraps(a, b) ==> Inside(a, b)
  {
  }

  lemma {:induction false} AtMostOne(bs: seq<Block>, i: nat)
    requires i < |bs| && bs[0].kind == SehTry
    ensures |OwnClause(bs, i)| <= 1
  {
  }

  ghost predicate Rising(tags: seq<Tag>) {
    forall i, j :: 0 <= i < j < |tags| ==> tags[i].offset <= tags[j].offset
  }

  // The blocks of tags with rising offsets are in order.
  lemma {:induction false} RisingIsOrdered(tags: seq<Tag>, o: nat, bs: seq<Block>, lo: int, hi: int)
    requires Rising(tags) && StandsAt(tags, o, FlatAll(bs))
    requires forall i :: o <= i < o + |FlatAll(bs)| ==> lo <= tags[i].offset <= hi
    ensures Ordered(bs, lo, hi)
    decreases bs
  {
    hide Flat, FlatAll;
    if bs != [] {
      FirstOfFlat(tags, o, bs);
      var b := bs[0];
      var close := o + 1 + |FlatAll(b.kids)|;
      assert b.start == tags[o].offset && b.stop == tags[close].offset;
      assert o + |FlatAll(bs)| == close + 1 + |FlatAll(bs[1..])|;
      RisingIsOrdered(tags, o + 1, b.kids, b.start, b.stop);
      RisingIsOrdered(tags, close + 1, bs[1..], b.stop, hi);
      FirstInOrder(bs, lo, hi);
    }
  }

  lemma {:induction false} FirstInOrder(bs: seq<Block>, lo: int, hi: int)
    requires bs != [] && Ordered(bs[1..], bs[0].stop, hi)
    requires lo <= bs[0].start <= bs[0].stop <= hi && Ordered(bs[0].kids, bs[0].start, bs[0].stop)
    ensures Ordered(bs, lo, hi)
  {
    var rest := bs[1..];
    forall i | 0 <= i < |bs| ensures lo <= bs[i].start <= bs[i].stop <= hi && Ordered(bs[i].kids, bs[i].start, bs[i].stop) {
      if i > 0 { assert bs[i] == rest[i - 1]; }
    }
    forall i, j | 0 <= i < j < |bs| ensures bs[i].stop <= bs[j].start {
      assert bs[j] == rest[j - 1];
      if i > 0 { assert bs[i] == rest[i - 1]; }
    }
  }

  // ---- Which tags can be compiled ----

  // The blocks CompileSEH finds from the first tag on. What stands behind
  // their end, if that is not the end of the list, is not looked at.
  ghost predicate StandsFor(tags: seq<Tag>, bs: seq<Block>) {
    && Compilable(bs) && (bs == [] <==> tags == [])
    && StandsAt(tags, 0, FlatAll(bs)) && Closes(tags, |FlatAll(bs)|)
    && (bs != [] ==> NotPastEnd(tags, |FlatAll(bs)|, bs))
  }

  // There is only one way to read the tags as blocks.
  lemma {:induction false} FlatIsUnique(tags: seq<Tag>, o: nat, a: seq<Block>, b: seq<Block>)
    requires StandsAt(tags, o, FlatAll(a)) && Closes(tags, o + |FlatAll(a)|)
    requires StandsAt(tags, o, FlatAll(b)) && Closes(tags, o + |FlatAll(b)|)
    ensures a == b
    decreases a
  {
    hide Flat, FlatAll, StandsAt;
    NoTags();
    if a != [] { FirstOfFlat(tags, o, a); }
    if b != [] { FirstOfFlat(tags, o, b); }
    if a != [] && b != [] {
      FlatIsUnique(tags, o + 1, a[0].kids, b[0].kids);
      FlatIsUnique(tags, o + 2 + |FlatAll(a[0].kids)|, a[1..], b[1..]);
      assert a == [a[0]] + a[1..] && b == [b[0]] + b[1..];
    }
  }

  lemma StandsForIsUnique(tags: seq<Tag>, a: seq<Block>, b: seq<Block>)
    requires StandsFor(tags, a) && StandsFor(tags, b)
    ensures a == b
  {
    FlatIsUnique(tags, 0, a, b);
  }

  predicate EndsFilter(tag: Tag) { !tag.begin && tag.kind == SehFilter }

  lemma {:induction false} NoFilterIsCompilable(tags: seq<Tag>, o: nat, bs: seq<Block>)
    requires StandsAt(tags, o, FlatAll(bs)) && AllInner(bs) && (bs != [] ==> bs[0].kind == SehTry)
    requires forall i :: 0 <= i < |tags| ==> !EndsFilter(tags[i])
    ensures Compilable(bs)
    decreases bs
  {
    hide Flat, FlatAll, StandsAt;
    assert bs[0..] == bs;
    forall i: nat | i < |bs| ensures FilterPlaced(bs, i) && Compilable(bs[i].kids) {
      var at := BlockAt(tags, o, bs, 0, i);
      FlatAt(tags, at, bs, i);
      KidsAreInner(bs, i);
      assert EndsFilter(tags[at + 1 + |FlatAll(bs[i].kids)|]) <==> bs[i].kind == SehFilter;
      NoFilterIsCompilable(tags, at + 1, bs[i].kids);
    }
  }

  lemma {:induction false} KidsAreInner(bs: seq<Block>, i: nat)
    requires AllInner(bs) && i < |bs|
    ensures AllInner(bs[i].kids) && (bs[i].kids != [] ==> bs[i].kids[0].kind == SehTry)
  {
    assert IsInner(bs[i].kids);
    if bs[i].kids != [] { assert IsGroup(bs[i].kids); }
  }

  // Where block i stands.
  lemma {:induction false} BlockAt(tags: seq<Tag>, o: nat, bs: seq<Block>, j: nat, i: nat) returns (at: nat)
    requires j <= i <= |bs| && StandsAt(tags, o, FlatAll(bs[j..]))
    ensures StandsAt(tags, at, FlatAll(bs[i..])) && o <= at
    ensures at + |FlatAll(bs[i..])| == o + |FlatAll(bs[j..])|
    ensures j < i ==> at > 0 && tags[at - 1] == Tag(bs[i - 1].kind, false, bs[i - 1].stop, bs[i - 1].stopToken)
    decreases i - j
  {
    hide Flat, FlatAll, StandsAt;
    if j == i {
      at := o;
    } else {
      FlatAt(tags, o, bs, j);
      at := BlockAt(tags, o + 2 + |FlatAll(bs[j].kids)|, bs, j + 1, i);
    }
  }

  lemma {:induction false} LastTag(tags: seq<Tag>, bs: seq<Block>)
    requires bs != [] && StandsAt(tags, 0, FlatAll(bs))
    ensures 0 < |FlatAll(bs)| <= |tags| && tags[|FlatAll(bs)| - 1].kind == bs[|bs| - 1].kind
    ensures NotPastEnd(tags, |FlatAll(bs)|, bs)
            <==> !(|FlatAll(bs)| == |tags| && tags[|FlatAll(bs)| - 1].kind == SehTry)
  {
    hide Flat, FlatAll;
    assert bs[0..] == bs;
    var at := BlockAt(tags, 0, bs, 0, |bs|);
    assert bs[|bs|..] == [];
    NoTags();
  }

  // Accepted tags that do not end in a try block can be compiled; those that
  // do make CompileSEH read past their end.
  lemma {:induction false} AcceptedStandsFor(tags: seq<Tag>, r: nat)
    requires tags != [] && Validated(tags, 0) == Upto(r)
    requires forall i :: 0 <= i < |tags| ==> !EndsFilter(tags[i])
    ensures (exists bs :: StandsFor(tags, bs)) <==> !(r == |tags| && tags[r - 1].kind == SehTry)
  {
    var bs := GroupFound(tags, 0);
    hide Flat, FlatAll, Validated, Compilable, NotPastEnd;
    assert tags[0..r] == tags[..r];
    LastTag(tags, bs);
    NoFilterIsCompilable(tags, 0, bs);
    assert |FlatAll(bs)| == r && Closes(tags, r);
    if other :| StandsFor(tags, other) {
      FlatIsUnique(tags, 0, other, bs);
    }
    if NotPastEnd(tags, r, bs) {
      assert StandsFor(tags, bs);
    }
  }

  // ---- Which tags are those of a forest ----

  // Every try block is followed by a handler, every filter is empty and has a
  // handler behind it, and every filter handler a filter before it.
  predicate FollowedWell(tags: seq<Tag>, end: nat, i: nat)
    requires i < end <= |tags|
  {
    match (tags[i].kind, tags[i].begin)
    case (SehTry, false) => i + 1 < end && tags[i + 1].begin && tags[i + 1].kind != SehTry
    case (SehFilter, true) => i + 1 < end && !tags[i + 1].begin
    case (SehFilter, false) => i + 1 < end && tags[i + 1].begin && tags[i + 1].kind == SehFilterHandler
    case (SehFilterHandler, true) => i > 0 && EndsFilter(tags[i - 1])
    case _ => true
  }

  lemma {:induction false} FollowedIsForest(tags: seq<Tag>, end: nat, o: nat, bs: seq<Block>)
    requires StandsAt(tags, o, FlatAll(bs)) && AllInner(bs) && (bs != [] ==> bs[0].kind == SehTry)
    requires o + |FlatAll(bs)| <= end <= |tags| && (o + |FlatAll(bs)| < end ==> !tags[o + |FlatAll(bs)|].begin)
    requires forall i: nat :: i < end ==> FollowedWell(tags, end, i)
    ensures Forest(bs)
    decreases bs
  {
    hide Flat, FlatAll, StandsAt, FollowedWell;
    assert bs[0..] == bs;
    forall i: nat | i < |bs| ensures PlacedWell(bs, i) && Forest(bs[i].kids) {
      var at := BlockAt(tags, o, bs, 0, i);
      FlatAt(tags, at, bs, i);
      KidsAreInner(bs, i);
      FollowedIsForest(tags, end, at + 1, bs[i].kids);
      OneFollowed(tags, end, at, bs, i);
    }
  }

  lemma {:induction false} OneFollowed(tags: seq<Tag>, end: nat, at: nat, bs: seq<Block>, i: nat)
    requires i < |bs| && StandsAt(tags, at, FlatAll(bs[i..])) && bs[0].kind == SehTry
    requires i > 0 ==> at > 0 && tags[at - 1] == Tag(bs[i - 1].kind, false, bs[i - 1].stop, bs[i - 1].stopToken)
    requires at + |FlatAll(bs[i..])| <= end <= |tags|
    requires at + |FlatAll(bs[i..])| < end ==> !tags[at + |FlatAll(bs[i..])|].begin
    requires forall k: nat :: k < end ==> FollowedWell(tags, end, k)
    ensures PlacedWell(bs, i)
  {
    hide Flat, FlatAll, StandsAt;
    FlatAt(tags, at, bs, i);
    NoTags();
    var b := bs[i];
    var close := at + 1 + |FlatAll(b.kids)|;
    assert FollowedWell(tags, end, at) && FollowedWell(tags, end, close);
    if i + 1 < |bs| { FlatAt(tags, close + 1, bs, i + 1); } else { assert bs[i + 1..] == []; }
    if b.kids != [] { assert b.kids[0..] == b.kids; FlatAt(tags, at + 1, b.kids, 0); }
  }

  lemma {:induction false} ForestIsFollowed(tags: seq<Tag>, end: nat, o: nat, bs: seq<Block>, j: nat, i: nat)
    requires Forest(bs) && j < |bs| && StandsAt(tags, o, FlatAll(bs[j..])) && o + |FlatAll(bs[j..])| <= end <= |tags|
    requires j > 0 ==> o > 0 && tags[o - 1] == Tag(bs[j - 1].kind, false, bs[j - 1].stop, bs[j - 1].stopToken)
    requires o <= i < o + |FlatAll(bs[j..])|
    ensures FollowedWell(tags, end, i)
    decreases bs, |bs| - j
  {
    hide Flat, FlatAll, StandsAt;
    NoTags();
    FlatAt(tags, o, bs, j);
    var b := bs[j];
    var close := o + 1 + |FlatAll(b.kids)|;
    assert PlacedWell(bs, j);
    if j + 1 < |bs| { FlatAt(tags, close + 1, bs, j + 1); } else { assert bs[j + 1..] == []; }
    if o < i < close {
      assert b.kids[0..] == b.kids;
      ForestIsFollowed(tags, end, o + 1, b.kids, 0, i);
    } else if i > close {
      ForestIsFollowed(tags, end, close + 1, bs, j + 1, i);
    }
  }

  // Accepted tags are those of a forest exactly when this holds of each of
  // them, up to the end of the group.
  lemma {:induction false} ForestIffFollowed(tags: seq<Tag>, r: nat)
    requires tags != [] && Validated(tags, 0) == Upto(r)
    ensures (exists bs :: Forest(bs) && tags[..r] == FlatAll(bs)) <==> forall i: nat :: i < r ==> FollowedWell(tags, r, i)
  {
    var bs := GroupFound(tags, 0);
    hide Flat, FlatAll, Validated, Forest, FollowedWell;
    assert tags[0..r] == tags[..r];
    if forall i: nat :: i < r ==> FollowedWell(tags, r, i) {
      FollowedIsForest(tags, r, 0, bs);
    }
    if forest :| Forest(forest) && tags[..r] == FlatAll(forest) {
      assert forest[0..] == forest;
      NoTags();
      forall i: nat | i < r ensures FollowedWell(tags, r, i) {
        ForestIsFollowed(tags, r, 0, forest, 0, i);
      }
    }
  }
}
