// Validation of exception tags as one pass with a stack of open blocks: what
// the recursive ValidateSEHTags decides, and which error it reports.
module SehScan {
  import opened Instructions
  import opened SehTags

  // A block that is open, and whether it is the try block its group starts with.
  datatype Open = Open(kind: SehKind, first: bool)

  // Fresh: right behind the tag that opens a block; Protected: right behind
  // the first try block of a group; Handled: behind any other block.
  datatype Mode = Fresh | Protected | Handled

  function Scan(tags: seq<Tag>, i: nat, open: seq<Open>, mode: Mode): Outcome
    requires i <= |tags|
    decreases |tags| - i
  {
    if i == |tags| then
      if mode == Protected then Bad(ReadPastEnd) else if open != [] then Bad(OrphanedSEHTag) else Upto(i)
    else
      var tag := tags[i];
      if mode == Protected && (!tag.begin || tag.kind == SehTry) then Bad(ExpectedSEHHandler)
      else if mode == Fresh && tag.begin && tag.kind != SehTry then Bad(ExpectedSEHTry)
      else if tag.begin then Scan(tags, i + 1, [Open(tag.kind, mode == Fresh)] + open, Fresh)
      else if open == [] then if mode == Fresh then Bad(ExpectedSEHTry) else Upto(i)
      else if tag.kind != open[0].kind then Bad(MismatchedSEHTag)
      else Scan(tags, i + 1, open[1..], if open[0].first then Protected else Handled)
  }

  // At the end tag of an open block it does not matter whether blocks were inside.
  lemma AtEndTag(tags: seq<Tag>, i: nat, open: seq<Open>)
    requires i <= |tags| && (i < |tags| ==> !tags[i].begin) && open != []
    ensures Scan(tags, i, open, Fresh) == Scan(tags, i, open, Handled)
  {
  }

  lemma {:induction false} NestedIsScan(tags: seq<Tag>, o: nat, open: seq<Open>)
    requires o <= |tags| && open != []
    ensures Scan(tags, o, open, Fresh)
         == match ValidatedNested(tags, o) case Bad(e) => Bad(e) case Upto(n) => Scan(tags, n, open, Handled)
    decreases |tags| - o, 3
  {
    if o < |tags| && tags[o].begin {
      GroupIsScan(tags, o, open);
    } else {
      AtEndTag(tags, o, open);
    }
  }

  lemma {:induction false} GroupIsScan(tags: seq<Tag>, o: nat, open: seq<Open>)
    requires o < |tags| && tags[o].begin
    ensures Scan(tags, o, open, Fresh)
         == match Validated(tags, o) case Bad(e) => Bad(e) case Upto(n) => Scan(tags, n, open, Handled)
    ensures match Validated(tags, o) case Bad(e) => true case Upto(n) => n < |tags| ==> !tags[n].begin
    decreases |tags| - o, 2
  {
    if tags[o].kind == SehTry {
      var inner := [Open(SehTry, true)] + open;
      assert inner[1..] == open;
      NestedIsScan(tags, o + 1, inner);
      var body := ValidatedNested(tags, o + 1);
      if body.Upto? && body.next + 1 < |tags| && tags[body.next].kind == SehTry {
        var next := body.next + 1;
        if tags[next].begin && tags[next].kind != SehTry {
          assert Scan(tags, next, open, Protected) == Scan(tags, next, open, Handled);
          HandlersAreScan(tags, next, open);
        }
      }
    }
  }

  lemma {:induction false} HandlersAreScan(tags: seq<Tag>, o: nat, open: seq<Open>)
    requires o <= |tags|
    ensures Scan(tags, o, open, Handled)
         == match ValidatedHandlers(tags, o) case Bad(e) => Bad(e) case Upto(n) => Scan(tags, n, open, Handled)
    decreases |tags| - o, 1
  {
    if o < |tags| && tags[o].begin {
      var inner := [Open(tags[o].kind, false)] + open;
      assert inner[1..] == open;
      NestedIsScan(tags, o + 1, inner);
      var body := ValidatedNested(tags, o + 1);
      if body.Upto? && body.next < |tags| && tags[body.next].kind == tags[o].kind {
        HandlersAreScan(tags, body.next + 1, open);
      }
    }
  }

  // The recursion accepts what the pass accepts, up to the same tag, and
  // refuses the rest for the same reason.
  lemma {:induction false} ValidatedIsScan(tags: seq<Tag>, o: nat)
    requires o < |tags|
    ensures Validated(tags, o) == Scan(tags, o, [], Fresh)
  {
    if tags[o].begin {
      GroupIsScan(tags, o, []);
    }
  }
}
