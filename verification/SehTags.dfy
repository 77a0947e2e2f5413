// The tags that open and close protected blocks, and their validation.
module SehTags {
  import opened Bytes
  import opened Instructions

  // offset and token (the class of a catch) matter only to CompileSEH.
  datatype Tag = Tag(kind: SehKind, begin: bool, offset: int, token: int)

  datatype SehError =
    | ExpectedSEHTry | OrphanedSEHTag | MismatchedSEHTag | ExpectedSEHHandler
    | InvalidSEHFilter | InvalidSEHEpilogue
    | ReadPastEnd // the list ends right after a try block: undefined behaviour

  datatype Outcome = Upto(next: nat) | Bad(error: SehError)

  // ---- What ValidateSEHTags computes ----

  // Validates the group that starts at offset; the result is where it ends.
  function Validated(tags: seq<Tag>, offset: nat): (r: Outcome)
    requires offset < |tags|
    ensures r.Upto? ==> offset < r.next <= |tags|
    decreases |tags| - offset, 2
  {
    if tags[offset].kind != SehTry || !tags[offset].begin then Bad(ExpectedSEHTry)
    else
      var body := ValidatedNested(tags, offset + 1);
      if body.Bad? then body
      else if body.next >= |tags| then Bad(OrphanedSEHTag)
      else if tags[body.next].kind != SehTry then Bad(MismatchedSEHTag)
      else if body.next + 1 == |tags| then Bad(ReadPastEnd)
      else if !tags[body.next + 1].begin || tags[body.next + 1].kind == SehTry then Bad(ExpectedSEHHandler)
      else ValidatedHandlers(tags, body.next + 1)
  }

  function ValidatedNested(tags: seq<Tag>, offset: nat): (r: Outcome)
    requires offset <= |tags|
    ensures r.Upto? ==> offset <= r.next <= |tags| && (r.next < |tags| ==> !tags[r.next].begin)
    decreases |tags| - offset, 3
  {
    if offset < |tags| && tags[offset].begin then
      var group := Validated(tags, offset);
      if group.Bad? then group else ValidatedNested(tags, group.next)
    else Upto(offset)
  }

  function ValidatedHandlers(tags: seq<Tag>, offset: nat): (r: Outcome)
    requires offset <= |tags|
    ensures r.Upto? ==> offset <= r.next <= |tags| && (r.next < |tags| ==> !tags[r.next].begin)
    decreases |tags| - offset, 1
  {
    if offset == |tags| || !tags[offset].begin then Upto(offset)
    else
      var body := ValidatedNested(tags, offset + 1);
      if body.Bad? then body
      else if body.next >= |tags| then Bad(OrphanedSEHTag)
      else if tags[body.next].kind != tags[offset].kind then Bad(MismatchedSEHTag)
      else ValidatedHandlers(tags, body.next + 1)
  }

  // Validation looks only at kinds and sides.
  ghost predicate SameShape(a: seq<Tag>, b: seq<Tag>) {
    |a| == |b| && forall i :: 0 <= i < |a| ==> a[i].kind == b[i].kind && a[i].begin == b[i].begin
  }

  lemma {:induction false} ShapeValidates(a: seq<Tag>, b: seq<Tag>, o: nat)
    requires SameShape(a, b) && o < |a|
    ensures Validated(a, o) == Validated(b, o)
    decreases |a| - o, 2
  {
    ShapeValidatesNested(a, b, o + 1);
    var body := ValidatedNested(a, o + 1);
    if body.Upto? && body.next + 1 < |a| {
      ShapeValidatesHandlers(a, b, body.next + 1);
    }
  }

  lemma {:induction false} ShapeValidatesNested(a: seq<Tag>, b: seq<Tag>, o: nat)
    requires SameShape(a, b) && o <= |a|
    ensures ValidatedNested(a, o) == ValidatedNested(b, o)
    decreases |a| - o, 3
  {
    if o < |a| && a[o].begin {
      ShapeValidates(a, b, o);
      if Validated(a, o).Upto? { ShapeValidatesNested(a, b, Validated(a, o).next); }
    }
  }

  lemma {:induction false} ShapeValidatesHandlers(a: seq<Tag>, b: seq<Tag>, o: nat)
    requires SameShape(a, b) && o <= |a|
    ensures ValidatedHandlers(a, o) == ValidatedHandlers(b, o)
    decreases |a| - o, 1
  {
    if o < |a| && a[o].begin {
      ShapeValidatesNested(a, b, o + 1);
      var body := ValidatedNested(a, o + 1);
      if body.Upto? && body.next < |a| { ShapeValidatesHandlers(a, b, body.next + 1); }
    }
  }

  method ValidateSEHTags(tags: seq<Tag>, offsetIn: nat) returns (r: Outcome)
    requires offsetIn < |tags|
    ensures r == Validated(tags, offsetIn)
    decreases |tags| - offsetIn
  {
    var offset := offsetIn;
    var start := tags[offset];
    offset := offset + 1;
    if start.kind != SehTry { return Bad(ExpectedSEHTry); }
    if !start.begin { return Bad(ExpectedSEHTry); }
    while offset < |tags| && tags[offset].begin
      invariant offsetIn < offset <= |tags|
      invariant ValidatedNested(tags, offsetIn + 1) == ValidatedNested(tags, offset)
    {
      var nested := ValidateSEHTags(tags, offset);
      if nested.Bad? { return nested; }
      offset := nested.next;
    }
    if offset >= |tags| { return Bad(OrphanedSEHTag); }
    if tags[offset].kind != SehTry { return Bad(MismatchedSEHTag); }
    offset := offset + 1;
    if offset == |tags| { return Bad(ReadPastEnd); }
    if !tags[offset].begin || tags[offset].kind == SehTry { return Bad(ExpectedSEHHandler); }
    ghost var handlers := offset;
    while offset < |tags|
      invariant offsetIn < handlers <= offset <= |tags|
      invariant ValidatedHandlers(tags, handlers) == ValidatedHandlers(tags, offset)
    {
      if !tags[offset].begin { return Upto(offset); }
      var kind := tags[offset].kind;
      ghost var first := offset + 1;
      offset := offset + 1;
      while offset < |tags| && tags[offset].begin
        invariant first <= offset <= |tags|
        invariant ValidatedNested(tags, first) == ValidatedNested(tags, offset)
      {
        var nested := ValidateSEHTags(tags, offset);
        if nested.Bad? { return nested; }
        offset := nested.next;
      }
      if offset >= |tags| { return Bad(OrphanedSEHTag); }
      if tags[offset].kind != kind { return Bad(MismatchedSEHTag); }
      offset := offset + 1;
    }
    return Upto(offset);
  }

  // ---- The block structure the tags stand for ----

  datatype Block = Block(kind: SehKind, start: int, token: int, kids: seq<Block>, stop: int, stopToken: int)

  function Flat(b: Block): (s: seq<Tag>)
    ensures |s| >= 2
    decreases b, 1
  {
    [Tag(b.kind, true, b.start, b.token)] + FlatAll(b.kids) + [Tag(b.kind, false, b.stop, b.stopToken)]
  }

  function FlatAll(bs: seq<Block>): (s: seq<Tag>)
    ensures bs != [] ==> s != [] && s[0] == Tag(bs[0].kind, true, bs[0].start, bs[0].token)
    decreases bs, 0
  {
    if bs == [] then [] else Flat(bs[0]) + FlatAll(bs[1..])
  }

  // A try block, then at least one block of another kind, then any blocks;
  // inside each block nothing or another such group.
  predicate IsGroup(bs: seq<Block>)
    decreases bs, 2
  {
    |bs| >= 2 && bs[0].kind == SehTry && bs[1].kind != SehTry && AllInner(bs)
  }

  predicate AllInner(bs: seq<Block>)
    decreases bs, 1
  {
    forall i :: 0 <= i < |bs| ==> IsInner(bs[i].kids)
  }

  predicate IsInner(kids: seq<Block>)
    decreases kids, 3
  {
    kids == [] || IsGroup(kids)
  }

  // ---- Accepted exactly when the tags are the tags of a group ----

  predicate StandsAt(tags: seq<Tag>, o: nat, s: seq<Tag>) {
    o + |s| <= |tags| && tags[o..o + |s|] == s
  }

  // A group may be followed by nothing or by the end of an enclosing block.
  predicate Closes(tags: seq<Tag>, o: nat)
    requires o <= |tags|
  {
    o == |tags| || !tags[o].begin
  }

  lemma {:induction false} FirstOfFlat(tags: seq<Tag>, o: nat, bs: seq<Block>)
    requires bs != [] && StandsAt(tags, o, FlatAll(bs))
    ensures var b := bs[0];
            var n := |FlatAll(b.kids)|;
            && |FlatAll(bs)| == n + 2 + |FlatAll(bs[1..])|
            && o + n + 2 <= |tags|
            && tags[o] == Tag(b.kind, true, b.start, b.token)
            && StandsAt(tags, o + 1, FlatAll(b.kids))
            && tags[o + 1 + n] == Tag(b.kind, false, b.stop, b.stopToken)
            && StandsAt(tags, o + n + 2, FlatAll(bs[1..]))
  {
    var b := bs[0];
    var open, close := Tag(b.kind, true, b.start, b.token), Tag(b.kind, false, b.stop, b.stopToken);
    var kids, rest := FlatAll(b.kids), FlatAll(bs[1..]);
    assert FlatAll(bs) == [open] + kids + [close] + rest;
    hide Flat, FlatAll;
    Pieces(tags, o, open, kids, close, rest);
  }

  lemma Pieces(tags: seq<Tag>, o: nat, open: Tag, kids: seq<Tag>, close: Tag, rest: seq<Tag>)
    requires StandsAt(tags, o, [open] + kids + [close] + rest)
    ensures tags[o] == open && StandsAt(tags, o + 1, kids)
    ensures tags[o + 1 + |kids|] == close && StandsAt(tags, o + |kids| + 2, rest)
  {
    var s := [open] + kids + [close] + rest;
    var t := tags[o..o + |s|];
    assert s == [open] + (kids + ([close] + rest));
    assert tags[o] == t[0];
    assert tags[o + 1..o + |s|] == t[1..] == kids + ([close] + rest);
    assert tags[o + 1..o + 1 + |kids|] == t[1..][..|kids|];
    assert tags[o + 1 + |kids|..o + |s|] == t[1..][|kids|..] == [close] + rest;
    assert tags[o + 1 + |kids|] == t[1..][|kids|..][0];
    assert tags[o + |kids| + 2..o + |s|] == t[1..][|kids|..][1..];
  }

  lemma {:induction false} TailIsInner(bs: seq<Block>)
    requires bs != [] && AllInner(bs)
    ensures IsInner(bs[0].kids) && AllInner(bs[1..])
  {
    assert forall i :: 0 <= i < |bs| - 1 ==> bs[1..][i] == bs[i + 1];
  }

  lemma {:induction false} GroupAccepted(tags: seq<Tag>, o: nat, bs: seq<Block>)
    requires IsGroup(bs) && StandsAt(tags, o, FlatAll(bs)) && Closes(tags, o + |FlatAll(bs)|)
    ensures o < |tags| && Validated(tags, o) == Upto(o + |FlatAll(bs)|)
    decreases bs, 0
  {
    hide Flat, FlatAll, AllInner, IsInner, StandsAt;
    TailIsInner(bs);
    FirstOfFlat(tags, o, bs);
    InnerAccepted(tags, o + 1, bs[0].kids);
    var rest := o + |FlatAll(bs[0].kids)| + 2;
    FirstOfFlat(tags, rest, bs[1..]);
    HandlersAccepted(tags, rest, bs[1..]);
  }

  lemma {:induction false} InnerAccepted(tags: seq<Tag>, o: nat, kids: seq<Block>)
    requires IsInner(kids) && StandsAt(tags, o, FlatAll(kids))
    requires o + |FlatAll(kids)| < |tags| && !tags[o + |FlatAll(kids)|].begin
    ensures ValidatedNested(tags, o) == Upto(o + |FlatAll(kids)|)
    decreases kids, 1
  {
    if kids != [] {
      FirstOfFlat(tags, o, kids);
      GroupAccepted(tags, o, kids);
    }
  }

  lemma {:induction false} HandlersAccepted(tags: seq<Tag>, o: nat, bs: seq<Block>)
    requires AllInner(bs) && StandsAt(tags, o, FlatAll(bs)) && Closes(tags, o + |FlatAll(bs)|)
    ensures ValidatedHandlers(tags, o) == Upto(o + |FlatAll(bs)|)
    decreases bs, 0
  {
    hide Flat, FlatAll, StandsAt, IsInner;
    if bs != [] {
      FirstOfFlat(tags, o, bs);
      TailIsInner(bs);
      hide AllInner;
      InnerAccepted(tags, o + 1, bs[0].kids);
      HandlersAccepted(tags, o + |FlatAll(bs[0].kids)| + 2, bs[1..]);
    } else {
      NothingFlat(bs);
    }
  }

  lemma NothingFlat(bs: seq<Block>)
    requires bs == []
    ensures FlatAll(bs) == []
  {
  }

  lemma {:induction false} GroupFound(tags: seq<Tag>, o: nat) returns (bs: seq<Block>)
    requires o < |tags| && Validated(tags, o).Upto?
    ensures IsGroup(bs) && tags[o..Validated(tags, o).next] == FlatAll(bs)
    ensures Closes(tags, Validated(tags, o).next)
    decreases |tags| - o, 2
  {
    var kids := InnerFound(tags, o + 1);
    var close := ValidatedNested(tags, o + 1).next;
    var rest := HandlersFound(tags, close + 1);
    bs := Prepend(tags, o, close, Validated(tags, o).next, kids, rest);
    assert rest != [];
    assert bs[1..] == rest;
  }

  lemma {:induction false} InnerFound(tags: seq<Tag>, o: nat) returns (kids: seq<Block>)
    requires o <= |tags| && ValidatedNested(tags, o).Upto?
    ensures IsInner(kids) && tags[o..ValidatedNested(tags, o).next] == FlatAll(kids)
    decreases |tags| - o, 3
  {
    if o < |tags| && tags[o].begin {
      kids := GroupFound(tags, o);
    } else {
      kids := [];
    }
  }

  lemma {:induction false} HandlersFound(tags: seq<Tag>, o: nat) returns (bs: seq<Block>)
    requires o <= |tags| && ValidatedHandlers(tags, o).Upto?
    ensures AllInner(bs) && tags[o..ValidatedHandlers(tags, o).next] == FlatAll(bs)
    decreases |tags| - o, 1
  {
    if o == |tags| || !tags[o].begin {
      bs := [];
    } else {
      var kids := InnerFound(tags, o + 1);
      var close := ValidatedNested(tags, o + 1).next;
      var rest := HandlersFound(tags, close + 1);
      bs := Prepend(tags, o, close, ValidatedHandlers(tags, o).next, kids, rest);
    }
  }

  lemma {:induction false} Prepend(tags: seq<Tag>, o: nat, close: nat, end: nat, kids: seq<Block>, rest: seq<Block>) returns (bs: seq<Block>)
    requires o < close < end <= |tags|
    requires tags[o].begin && !tags[close].begin && tags[close].kind == tags[o].kind
    requires tags[o + 1..close] == FlatAll(kids) && tags[close + 1..end] == FlatAll(rest)
    requires IsInner(kids) && AllInner(rest)
    ensures |bs| == 1 + |rest| && bs[1..] == rest && bs[0].kind == tags[o].kind
    ensures AllInner(bs) && tags[o..end] == FlatAll(bs)
  {
    var b := Block(tags[o].kind, tags[o].offset, tags[o].token, kids, tags[close].offset, tags[close].token);
    bs := [b] + rest;
    assert bs[1..] == rest;
    assert tags[o..end] == tags[o..o + 1] + tags[o + 1..close] + tags[close..close + 1] + tags[close + 1..end];
  }

  // Validation succeeds, ending at r, exactly when the tags from o to r are
  // those of a group and nothing else opens there.
  lemma {:induction false} ValidatedIffGroup(tags: seq<Tag>, o: nat, r: nat)
    requires o < |tags|
    ensures Validated(tags, o) == Upto(r) <==>
              r <= |tags| && o <= r && Closes(tags, r) && exists bs :: IsGroup(bs) && tags[o..r] == FlatAll(bs)
  {
    if Validated(tags, o) == Upto(r) {
      var bs := GroupFound(tags, o);
    }
    if r <= |tags| && o <= r && Closes(tags, r) && exists bs :: IsGroup(bs) && tags[o..r] == FlatAll(bs) {
      var bs :| IsGroup(bs) && tags[o..r] == FlatAll(bs);
      GroupAccepted(tags, o, bs);
    }
  }

  // A try block without handlers is let through when another group precedes it.
  lemma {:induction false} HandlerlessTryAccepted()
    ensures var mark := (kind, begin) => Tag(kind, begin, 0, 0);
            Validated([mark(SehTry, true), mark(SehTry, false), mark(SehCatch, true), mark(SehCatch, false),
                       mark(SehTry, true), mark(SehTry, false)], 0) == Upto(6)
  {
    var mark := (kind, begin) => Tag(kind, begin, 0, 0);
    var block := kind => Block(kind, 0, 0, [], 0, 0);
    var bs := [block(SehTry), block(SehCatch), block(SehTry)];
    var tags := [mark(SehTry, true), mark(SehTry, false), mark(SehCatch, true), mark(SehCatch, false),
                 mark(SehTry, true), mark(SehTry, false)];
    assert bs[1..] == [block(SehCatch), block(SehTry)];
    assert bs[1..][1..] == [block(SehTry)];
    assert FlatAll([block(SehTry)]) == tags[4..];
    assert FlatAll(bs[1..]) == tags[2..];
    assert FlatAll(bs) == tags;
    assert IsInner([]);
    assert AllInner(bs);
    GroupAccepted(tags, 0, bs);
  }
}
