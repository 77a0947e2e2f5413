// The cursor over an object file and the stream it is written to.
module ObjectStream {
  import opened Bytes
  import opened Opcodes
  import opened ObjectText

  // ---- Writing ----

  class ObjectWriter {
    var text: string

    constructor ()
      ensures text == ""
    {
      text := "";
    }

    method Put(s: string)
      modifies this
      ensures text == old(text) + s
    {
      text := text + s;
    }

    method OperandOut(o: Operand)
      modifies this
      ensures text == old(text) + OperandText(o)
    {
      hide IntText, FormatName;
      Put(NEWLINE + "$ob");
      match o {
        case NoValue => Put(IntText(0));
        case IntValue(size, n) => Put(IntText(2) + "," + IntText(size) + "," + IntText(n));
        case StringValue(s) => Put(IntText(4) + "," + FormatName(s));
        case LabelValue(name) => Put(IntText(5) + "," + FormatName(name));
      }
      Put(NEWLINE + "$oe");
    }

    method BodyOut(b: Body)
      modifies this
      ensures text == old(text) + BodyText(b)
    {
      hide IntText, FormatName, OperandText;
      match b {
        case Bare => Put("$$");
        case WithOperand(o) =>
          Put(",");
          OperandOut(o);
        case SehTag(kind, begin) => Put("," + IntText(kind) + "," + IntText(if begin then 1 else 0) + "@");
        case LabelName(name) => Put("," + FormatName(name));
        case CommentText(comment) => Put("," + FormatName(comment));
        case SwitchTo(names) =>
          Put("," + IntText(|names|));
          NamesOut(names);
      }
    }

    method NamesOut(names: seq<string>)
      modifies this
      ensures text == old(text) + NamesText(names, 0)
    {
      hide FormatName;
      var k := 0;
      while k < |names|
        invariant k <= |names| && text + NamesText(names, k) == old(text) + NamesText(names, 0)
      {
        ghost var before := text;
        Put("," + FormatName(names[k]));
        assert text + NamesText(names, k + 1) == before + NamesText(names, k);
        k := k + 1;
      }
    }

    method InstrOut(i: Instr)
      modifies this
      ensures text == old(text) + InstrText(i)
    {
      hide IntText, BodyText;
      Put(NEWLINE + "$ib" + IntText(i.op) + "," + IntText(i.offset));
      BodyOut(i.body);
      Put(NEWLINE + "$ie");
    }

    // An empty list leaves no trace at all.
    method ObjOut(list: seq<Instr>)
      modifies this
      ensures text == old(text) + if list == [] then "" else NEWLINE + "$Ib" + ListText(list, 0)
    {
      hide InstrText;
      if |list| != 0 {
        Put(NEWLINE + "$Ib");
        ghost var start := text;
        var k := 0;
        while k < |list|
          invariant k <= |list| && text + ListText(list, k) == start + ListText(list, 0)
        {
          ghost var before := text;
          InstrOut(list[k]);
          assert text + ListText(list, k + 1) == before + ListText(list, k);
          k := k + 1;
        }
        Put(NEWLINE + "$Ie");
      }
    }
  }

  // ---- Reading ----

  // What has been read so far, and the list that stands at s, make the whole.
  ghost predicate Remains(whole: Option<(seq<Instr>, string)>, done: seq<Instr>, s: string) {
    match ListIn(s)
    case None => whole.None?
    case Some((more, rest)) => whole == Some((done + more, rest))
  }

  lemma NoneDone(s: string)
    ensures Remains(ListIn(s), [], s)
  {
    assert ListIn(s).Some? ==> [] + ListIn(s).value.0 == ListIn(s).value.0;
  }

  lemma OneDone(whole: Option<(seq<Instr>, string)>, done: seq<Instr>, s: string)
    requires Remains(whole, done, s) && Marked(s, 'b').Some? && Marked(s, 'b').value.0 == 'i'
    ensures match InstrIn(Marked(s, 'b').value.1)
            case None => whole.None?
            case Some((i, rest)) => Remains(whole, done + [i], rest)
  {
    hide Marked, InstrIn;
    match InstrIn(Marked(s, 'b').value.1) {
      case None =>
      case Some((i, rest)) =>
        assert ListIn(rest).Some? ==> done + ([i] + ListIn(rest).value.0) == done + [i] + ListIn(rest).value.0;
    }
  }

  lemma AllDone(whole: Option<(seq<Instr>, string)>, done: seq<Instr>, s: string)
    requires Remains(whole, done, s) && (Marked(s, 'b').Some? ==> Marked(s, 'b').value.0 != 'i')
    ensures match Marked(s, 'e')
            case None => whole.None?
            case Some((k, rest)) => whole == if k == 'I' then Some((done, rest)) else None
  {
    hide Marked, InstrIn;
    assert done + [] == done;
  }

  class ObjectReader {
    const buf: string
    var pos: nat
    var cache: nat

    ghost predicate Valid()
      reads this
    {
      pos <= |buf| && cache <= |buf|
    }

    constructor (buf: string)
      ensures Valid() && this.buf == buf && pos == cache == 0
    {
      this.buf := buf;
      pos, cache := 0, 0;
    }

    function Rest(): string
      requires pos <= |buf|
      reads this
    {
      buf[pos..]
    }

    // The outcome is the expected one, and the cursor stands behind it.
    ghost predicate Got<T>(expected: Option<(T, string)>, found: Option<T>)
      reads this
    {
      && Valid() && (found.None? <==> expected.None?)
      && (found.Some? ==> expected == Some((found.value, Rest())))
    }

    method NextChar() returns (ch: Option<char>)
      requires Valid()
      modifies this`pos
      ensures Got(ObjChar(old(Rest())), ch)
      ensures ch.Some? ==> old(pos) < pos && buf[pos - 1..] == [ch.value] + Rest() == Skip(old(Rest()))
    {
      while pos < |buf| && IsSpace(buf[pos])
        invariant Valid() && old(pos) <= pos && Skip(Rest()) == Skip(old(Rest()))
      {
        assert Rest()[1..] == buf[pos + 1..];
        pos := pos + 1;
      }
      if pos < |buf| {
        ch := Some(buf[pos]);
        assert Rest()[1..] == buf[pos + 1..];
        pos := pos + 1;
        assert buf[pos - 1..] == [ch.value] + Rest();
      } else {
        ch := None;
      }
    }

    // Reads one character too many and steps back.
    method ReadInt() returns (value: Option<int>)
      requires Valid()
      modifies this`pos
      ensures Got(ObjInt(old(Rest())), value)
    {
      hide Skip, ObjChar, ToInt64, Digits;
      var minus := false;
      var ch := NextChar();
      if ch == Some('-') {
        minus := true;
        ch := NextChar();
      }
      ghost var start := if minus then ObjChar(old(Rest())).value.1 else old(Rest());
      var total := 0;
      ghost var digits: nat := 0;
      Int64IffFits(0);
      CollectedIs(start, 0);
      while ch.Some? && IsDigit(ch.value)
        invariant Valid() && Digits(start, 0) == Collected(ch, Rest(), digits) && total == ToInt64(digits)
        invariant ch.Some? ==> pos > 0 && buf[pos - 1..] == [ch.value] + Rest()
        decreases if ch.Some? then |buf| + 1 - pos else 0
      {
        WrapsOnce(digits, (ch.value - '0') as nat);
        CollectedIs(Rest(), digits * 10 + (ch.value - '0') as nat);
        total := ToInt64(total * 10 + (ch.value - '0') as nat);
        digits := digits * 10 + (ch.value - '0') as nat;
        ch := NextChar();
      }
      if ch.None? { return None; }
      pos := pos - 1;
      WrapsOnce(digits, 0);
      return Some(if minus then ToInt64(-total) else total);
    }

    // What Digits makes of a character just read and the rest.
    static function Collected(ch: Option<char>, rest: string, acc: nat): Option<(nat, string)> {
      match ch
      case None => None
      case Some(c) => if IsDigit(c) then Digits(rest, acc * 10 + (c - '0') as nat) else Some((acc, [c] + rest))
    }

    static lemma CollectedIs(s: string, acc: nat)
      ensures Digits(s, acc) == match ObjChar(s)
                                case None => Collected(None, "", acc)
                                case Some((c, rest)) => Collected(Some(c), rest, acc)
    {
      hide ObjChar;
    }

    method ReadHex() returns (value: Option<nat>)
      requires Valid()
      modifies this`pos
      ensures Got(ObjHex(old(Rest())), value)
    {
      hide ObjChar, Skip;
      var ch := NextChar();
      if ch.None? { return None; }
      value := HexValue(ch.value);
    }

    method ReadHex2() returns (value: Option<nat>)
      requires Valid()
      modifies this`pos
      ensures Got(ObjHex2(old(Rest())), value)
    {
      hide ObjHex;
      var high := ReadHex();
      if high.None? { return None; }
      var low := ReadHex();
      if low.None? { return None; }
      return Some(high.value * 16 + low.value);
    }

    method ReadName() returns (name: Option<string>)
      requires Valid()
      modifies this`pos
      ensures Got(UnformatName(old(Rest())), name)
    {
      hide ObjHex2;
      var high := ReadHex2();
      if high.None? { return None; }
      var low := ReadHex2();
      if low.None? { return None; }
      var n := high.value * 256 + low.value;
      if n > |buf| - pos { return None; }
      name := Some(buf[pos..pos + n]);
      assert Rest()[..n] == name.value && Rest()[n..] == buf[pos + n..];
      pos := pos + n;
    }

    method ReadComma() returns (found: bool)
      requires Valid()
      modifies this`pos
      ensures Valid() && (found <==> Expect(old(Rest()), ',').Some?)
      ensures found ==> Expect(old(Rest()), ',') == Some(Rest())
    {
      hide ObjChar, Skip;
      var ch := NextChar();
      found := ch == Some(',');
    }

    // The kind letter of a mark of this side. When the last look failed it
    // can be repeated, for the other side, from where it started.
    method Look(next: bool, side: char) returns (kind: Option<char>)
      requires Valid()
      modifies this`pos, this`cache
      ensures Valid() && cache == if next then old(pos) else old(cache)
      ensures var from := buf[if next then old(pos) else old(cache)..];
              Got(Marked(from, side), kind)
    {
      hide Skip, ObjChar;
      if !next {
        pos := cache;
      } else {
        cache := pos;
      }
      ghost var from := Rest();
      var ch := NextChar();
      NextOrNot(from);
      if ch == Some('$') {
        if pos + 1 < |buf| && buf[pos + 1] == side {
          kind := Some(buf[pos]);
          assert buf[pos - 1..][1] == buf[pos] && buf[pos - 1..][2] == buf[pos + 1];
          assert buf[pos - 1..][3..] == buf[pos + 2..];
          pos := pos + 2;
          return;
        }
        if pos + 1 < |buf| {
          assert buf[pos - 1..][2] == buf[pos + 1];
        }
      }
      if pos > 0 {
        pos := pos - 1;
      }
      return None;
    }

    method ReadCommaInt() returns (n: Option<int>)
      requires Valid()
      modifies this`pos
      ensures Got(CommaInt(old(Rest())), n)
    {
      hide Expect, ObjInt;
      var comma := ReadComma();
      if !comma { return None; }
      n := ReadInt();
    }

    method ReadCommaName() returns (name: Option<string>)
      requires Valid()
      modifies this`pos
      ensures Got(CommaName(old(Rest())), name)
    {
      hide Expect, UnformatName;
      var comma := ReadComma();
      if !comma { return None; }
      name := ReadName();
    }

    method ObjBegin(next: bool) returns (kind: Option<char>)
      requires Valid()
      modifies this`pos, this`cache
      ensures Valid() && cache == if next then old(pos) else old(cache)
      ensures Got(Marked(buf[if next then old(pos) else old(cache)..], 'b'), kind)
    {
      kind := Look(next, 'b');
    }

    method ObjEnd(next: bool) returns (kind: Option<char>)
      requires Valid()
      modifies this`pos, this`cache
      ensures Valid() && cache == if next then old(pos) else old(cache)
      ensures Got(Marked(buf[if next then old(pos) else old(cache)..], 'e'), kind)
    {
      kind := Look(next, 'e');
    }

    // ---- Operands, instructions, lists ----

    method ReadOperandBody() returns (o: Option<Operand>)
      requires Valid()
      modifies this`pos
      ensures Got(OperandBody(old(Rest())), o)
    {
      hide ObjInt, CommaInt, CommaName;
      var kind := ReadInt();
      if kind.None? || kind.value == 1 || kind.value == 3 { return None; }
      if kind.value == 2 {
        var size := ReadCommaInt();
        if size.None? { return None; }
        var n := ReadCommaInt();
        if n.None? || size.value < 0 { return None; }
        return Some(IntValue(size.value, n.value));
      } else if kind.value == 4 {
        var text := ReadCommaName();
        if text.None? { return None; }
        return Some(StringValue(text.value));
      } else if kind.value == 5 {
        var name := ReadCommaName();
        if name.None? { return None; }
        return Some(LabelValue(name.value));
      } else {
        return Some(NoValue);
      }
    }

    // The closing mark of something just read.
    method Close<T>(found: Option<T>, kind: char, ghost expected: Option<(T, string)>) returns (closed: Option<T>)
      requires Got(expected, found)
      modifies this`pos, this`cache
      ensures Got(Closed(expected, kind), closed)
    {
      hide Marked;
      if found.None? { return None; }
      var end := ObjEnd(true);
      if end != Some(kind) { return None; }
      return found;
    }

    method ReadOperand() returns (o: Option<Operand>)
      requires Valid()
      modifies this`pos, this`cache
      ensures Got(OperandIn(old(Rest())), o)
    {
      hide Marked, OperandBody, Closed;
      var kind := ObjBegin(true);
      if kind != Some('o') { return None; }
      ghost var inside := OperandBody(Rest());
      o := ReadOperandBody();
      o := Close(o, 'o', inside);
    }

    method ReadNames(n: nat) returns (names: Option<seq<string>>)
      requires Valid()
      modifies this`pos
      ensures Got(NamesIn(old(Rest()), n), names)
    {
      hide CommaName;
      var done: seq<string> := [];
      ghost var all := NamesIn(Rest(), n);
      assert all.Some? ==> [] + all.value.0 == all.value.0;
      var i := 0;
      while i < n
        invariant i <= n && Valid()
        invariant match NamesIn(Rest(), n - i)
                  case None => NamesIn(old(Rest()), n).None?
                  case Some((more, rest)) => NamesIn(old(Rest()), n) == Some((done + more, rest))
      {
        var name := ReadCommaName();
        if name.None? { return None; }
        ghost var more := NamesIn(Rest(), n - i - 1);
        assert more.Some? ==> done + ([name.value] + more.value.0) == done + [name.value] + more.value.0;
        done := done + [name.value];
        i := i + 1;
      }
      assert done + [] == done;
      return Some(done);
    }

    method ReadBody(op: int) returns (body: Option<Body>)
      requires Valid()
      modifies this`pos, this`cache
      ensures Got(BodyIn(op, old(Rest())), body)
    {
      hide ObjInt, CommaInt, UnformatName, NamesIn, OperandIn, ObjChar;
      if op == SEH {
        var kind := ReadInt();
        if kind.None? { return None; }
        var begin := ReadCommaInt();
        if begin.None? { return None; }
        var ch := NextChar();
        if ch.None? || ch == Some(',') || kind.value < 0 { return None; }
        return Some(SehTag(kind.value, begin.value != 0));
      } else if op == LABEL {
        var name := ReadName();
        if name.None? { return None; }
        return Some(LabelName(name.value));
      } else if op == COMMENT {
        var text := ReadName();
        if text.None? { return None; }
        return Some(CommentText(text.value));
      } else if op == SWITCH {
        var n := ReadInt();
        if n.None? { return None; }
        var names := ReadNames(if n.value < 0 then 0 else n.value);
        if names.None? { return None; }
        return Some(SwitchTo(names.value));
      } else {
        var o := ReadOperand();
        if o.None? { return None; }
        return Some(WithOperand(o.value));
      }
    }

    method ReadTail(op: int) returns (body: Option<Body>)
      requires Valid()
      modifies this`pos, this`cache
      ensures Got(TailIn(op, old(Rest())), body)
    {
      hide BodyIn, ObjChar;
      var ch := NextChar();
      if ch == Some(',') {
        body := ReadBody(op);
      } else if ch == Some('$') {
        var second := NextChar();
        if second != Some('$') { return None; }
        return Some(Bare);
      } else {
        return None;
      }
    }

    method ReadInstr() returns (i: Option<Instr>)
      requires Valid()
      modifies this`pos, this`cache
      ensures Got(InstrIn(old(Rest())), i)
    {
      hide ObjInt, CommaInt, TailIn, Closed;
      var op := ReadInt();
      if op.None? { return None; }
      var offset := ReadCommaInt();
      if offset.None? { return None; }
      ghost var tail := TailIn(op.value, Rest());
      var body := ReadTail(op.value);
      body := Close(body, 'i', tail);
      if body.None? || !(0 <= op.value < 233) { return None; }
      return Some(Instr(op.value, offset.value, body.value));
    }

    // CodeContainer.ObjIn: the look for a further instruction that failed is
    // repeated for the end of the list.
    method ReadList() returns (list: Option<seq<Instr>>)
      requires Valid()
      modifies this`pos, this`cache
      ensures Got(ListIn(old(Rest())), list)
    {
      hide Marked, InstrIn, Remains;
      var done: seq<Instr> := [];
      NoneDone(Rest());
      var kind := ObjBegin(true);
      while kind == Some('i')
        invariant Valid() && Got(Marked(buf[cache..], 'b'), kind)
        invariant Remains(ListIn(old(Rest())), done, buf[cache..])
        decreases |buf| - cache
      {
        OneDone(ListIn(old(Rest())), done, buf[cache..]);
        var i := ReadInstr();
        if i.None? { return None; }
        done := done + [i.value];
        kind := ObjBegin(true);
      }
      AllDone(ListIn(old(Rest())), done, buf[cache..]);
      var end := ObjEnd(false);
      if end != Some('I') { return None; }
      return Some(done);
    }
  }

  lemma NextOrNot(s: string)
    ensures ObjChar(s).None? <==> Skip(s) == []
    ensures ObjChar(s).Some? ==> Skip(s) == [ObjChar(s).value.0] + ObjChar(s).value.1
  {
    hide Skip;
  }

  // Wrapping at every step comes to wrapping once.
  lemma WrapsOnce(n: nat, digit: nat)
    ensures ToInt64(ToInt64(n) * 10 + digit) == ToInt64(n * 10 + digit)
    ensures ToInt64(-ToInt64(n)) == ToInt64(Negative(n))
  {
    var k := (n - ToInt64(n)) / TWO_64;
    assert n == ToInt64(n) + TWO_64 * k by { SplitOff(n); }
    SameLow(n * 10 + digit, ToInt64(n) * 10 + digit, 10 * k);
    SameLow(-ToInt64(n), Negative(n), k);
  }

  lemma SplitOff(n: nat)
    ensures (n - ToInt64(n)) % TWO_64 == 0
  {
  }

  lemma SameLow(x: int, y: int, k: int)
    requires x == y + TWO_64 * k
    ensures ToInt64(x) == ToInt64(y)
  {
    assert y == TWO_64 * (y / TWO_64) + y % TWO_64;
    assert x == TWO_64 * (y / TWO_64 + k) + y % TWO_64;
  }
}
