// The text form of method bodies: ObjOut against ObjIn.
module ObjectText {
  import opened Bytes
  import opened Opcodes

  // ---- What is written ----

  datatype Operand = NoValue | IntValue(size: nat, n: int) | StringValue(s: string) | LabelValue(name: string)

  datatype Body =
    | Bare
    | WithOperand(operand: Operand)
    | SehTag(kind: nat, begin: bool)
    | LabelName(name: string)
    | CommentText(text: string)
    | SwitchTo(names: seq<string>)

  datatype Instr = Instr(op: Opcode, offset: int, body: Body)

  // The body an opcode calls for. Exception tags here have no catch type.
  predicate Fitting(i: Instr) {
    && Fits64(i.offset)
    && if i.op == SEH then i.body.SehTag?
       else if i.op == LABEL then i.body.LabelName?
       else if i.op == COMMENT then i.body.CommentText?
       else if i.op == SWITCH then i.body.SwitchTo?
       else i.body.Bare? || i.body.WithOperand?
  }

  function Digit(d: nat): char
    requires d < 10
  {
    '0' + d as char
  }

  function NatText(n: nat): (s: string)
    ensures s != [] && IsDigit(s[0])
  {
    if n < 10 then [Digit(n)] else NatText(n / 10) + [Digit(n % 10)]
  }

  function IntText(n: int): string { if n < 0 then "-" + NatText(-n) else NatText(n) }

  function HexDigit(d: nat): char
    requires d < 16
  {
    if d < 10 then '0' + d as char else 'A' + (d - 10) as char
  }

  // At least four hexadecimal digits.
  function LengthText(n: nat): (s: string)
    ensures |s| >= 4
  {
    if n < TWO_16 then [HexDigit(n / 4096), HexDigit(n / 256 % 16), HexDigit(n / 16 % 16), HexDigit(n % 16)]
    else LengthText(n / 16) + [HexDigit(n % 16)]
  }

  function FormatName(name: string): string { LengthText(|name|) + name }

  const NEWLINE: string := ['\n']

  function OperandText(o: Operand): string {
    NEWLINE + "$ob"
    + (match o
       case NoValue => IntText(0)
       case IntValue(size, n) => IntText(2) + "," + IntText(size) + "," + IntText(n)
       case StringValue(s) => IntText(4) + "," + FormatName(s)
       case LabelValue(name) => IntText(5) + "," + FormatName(name))
    + NEWLINE + "$oe"
  }

  function NamesText(names: seq<string>, k: nat): string
    requires k <= |names|
    decreases |names| - k
  {
    if k == |names| then "" else "," + FormatName(names[k]) + NamesText(names, k + 1)
  }

  function BodyText(b: Body): string {
    match b
    case Bare => "$$"
    case WithOperand(o) => "," + OperandText(o)
    case SehTag(kind, begin) => "," + IntText(kind) + "," + IntText(if begin then 1 else 0) + "@"
    case LabelName(name) => "," + FormatName(name)
    case CommentText(text) => "," + FormatName(text)
    case SwitchTo(names) => "," + IntText(|names|) + NamesText(names, 0)
  }

  function InstrText(i: Instr): string {
    NEWLINE + "$ib" + IntText(i.op) + "," + IntText(i.offset) + BodyText(i.body) + NEWLINE + "$ie"
  }

  function ListText(list: seq<Instr>, k: nat): string
    requires k <= |list|
    decreases |list| - k
  {
    if k == |list| then NEWLINE + "$Ie" else InstrText(list[k]) + ListText(list, k + 1)
  }

  // ---- The reader: the text still to be read ----

  predicate IsSpace(c: char) { c in {' ', '\t', '\n', 0x0b as char, 0x0c as char, '\r'} }

  predicate IsDigit(c: char) { '0' <= c <= '9' }

  function Skip(s: string): (r: string)
    ensures |r| <= |s| && (r != [] ==> !IsSpace(r[0]))
  {
    if s != [] && IsSpace(s[0]) then Skip(s[1..]) else s
  }

  function ObjChar(s: string): (r: Option<(char, string)>)
    ensures r.Some? ==> |r.value.1| < |s| && !IsSpace(r.value.0)
  {
    var t := Skip(s);
    if t == [] then None else Some((t[0], t[1..]))
  }

  // Collects digits up to the next character that is none, which stays.
  function Digits(s: string, acc: nat): (r: Option<(nat, string)>)
    ensures r.Some? ==> |r.value.1| <= |s|
    decreases |s|
  {
    match ObjChar(s)
    case None => None
    case Some((c, rest)) =>
      if IsDigit(c) then Digits(rest, acc * 10 + (c - '0') as nat) else Some((acc, [c] + rest))
  }

  function Negative(n: int): int { -n }

  // The digits add up in 64 bits.
  function ObjInt(s: string): (r: Option<(int, string)>)
    ensures r.Some? ==> |r.value.1| <= |s|
  {
    match ObjChar(s)
    case None => None
    case Some((c, rest)) =>
      if c == '-' then
        match Digits(rest, 0) case None => None case Some((n, after)) => Some((ToInt64(Negative(n)), after))
      else
        match Digits(s, 0) case None => None case Some((n, after)) => Some((ToInt64(n), after))
  }

  predicate Fits64(n: int) { -0x8000_0000_0000_0000 <= n < 0x8000_0000_0000_0000 }

  lemma Int64IffFits(n: int)
    ensures ToInt64(n) == n <==> Fits64(n)
  {
  }

  // The kind letter of the mark that comes next.
  function Marked(s: string, side: char): (r: Option<(char, string)>)
    ensures r.Some? ==> |r.value.1| < |s|
  {
    var t := Skip(s);
    if |t| >= 3 && t[0] == '$' && t[2] == side then Some((t[1], t[3..])) else None
  }

  function HexValue(c: char): Option<nat> {
    if '0' <= c <= '9' then Some((c - '0') as nat)
    else if 'A' <= c <= 'F' then Some((c - 'A') as nat + 10)
    else if 'a' <= c <= 'f' then Some((c - 'a') as nat + 10)
    else None
  }

  function ObjHex(s: string): (r: Option<(nat, string)>)
    ensures r.Some? ==> |r.value.1| < |s|
  {
    match ObjChar(s)
    case None => None
    case Some((c, rest)) =>
      match HexValue(c) case None => None case Some(d) => Some((d, rest))
  }

  function ObjHex2(s: string): (r: Option<(nat, string)>)
    ensures r.Some? ==> |r.value.1| < |s|
  {
    match ObjHex(s)
    case None => None
    case Some((high, s1)) =>
      match ObjHex(s1) case None => None case Some((low, s2)) => Some((high * 16 + low, s2))
  }

  function UnformatName(s: string): (r: Option<(string, string)>)
    ensures r.Some? ==> |r.value.1| < |s|
  {
    match ObjHex2(s)
    case None => None
    case Some((high, s1)) =>
      match ObjHex2(s1)
      case None => None
      case Some((low, s2)) =>
        var n := high * 256 + low;
        if n > |s2| then None else Some((s2[..n], s2[n..]))
  }

  function Expect(s: string, c: char): (r: Option<string>)
    ensures r.Some? ==> |r.value| < |s|
  {
    match ObjChar(s) case None => None case Some((d, rest)) => if d == c then Some(rest) else None
  }

  function CommaName(s: string): (r: Option<(string, string)>)
    ensures r.Some? ==> |r.value.1| < |s|
  {
    match Expect(s, ',') case None => None case Some(rest) => UnformatName(rest)
  }

  function CommaInt(s: string): (r: Option<(int, string)>)
    ensures r.Some? ==> |r.value.1| < |s|
  {
    match Expect(s, ',') case None => None case Some(rest) => ObjInt(rest)
  }

  // Operands that are values or floating point numbers are not read here.
  function OperandBody(s: string): (r: Option<(Operand, string)>)
    ensures r.Some? ==> |r.value.1| <= |s|
  {
    match ObjInt(s)
    case None => None
    case Some((kind, s1)) =>
      if kind == 1 || kind == 3 then None
      else if kind == 2 then
        match CommaInt(s1)
        case None => None
        case Some((size, s2)) =>
          match CommaInt(s2)
          case None => None
          case Some((n, s3)) => if size < 0 then None else Some((IntValue(size, n), s3))
      else if kind == 4 then
        match CommaName(s1) case None => None case Some((text, s2)) => Some((StringValue(text), s2))
      else if kind == 5 then
        match CommaName(s1) case None => None case Some((name, s2)) => Some((LabelValue(name), s2))
      else Some((NoValue, s1))
  }

  function Closed<T>(read: Option<(T, string)>, kind: char): (r: Option<(T, string)>)
    ensures r.Some? ==> read.Some? && |r.value.1| < |read.value.1|
  {
    match read
    case None => None
    case Some((x, s)) =>
      match Marked(s, 'e')
      case None => None
      case Some((k, rest)) => if k == kind then Some((x, rest)) else None
  }

  function OperandIn(s: string): (r: Option<(Operand, string)>)
    ensures r.Some? ==> |r.value.1| <= |s|
  {
    match Marked(s, 'b')
    case None => None
    case Some((k, s1)) => if k == 'o' then Closed(OperandBody(s1), 'o') else None
  }

  function NamesIn(s: string, n: nat): (r: Option<(seq<string>, string)>)
    ensures r.Some? ==> |r.value.0| == n && |r.value.1| <= |s|
    decreases n
  {
    if n == 0 then Some(([], s))
    else match CommaName(s)
      case None => None
      case Some((name, s1)) =>
        match NamesIn(s1, n - 1) case None => None case Some((names, rest)) => Some(([name] + names, rest))
  }

  // What follows the comma behind the offset.
  function BodyIn(op: int, s: string): (r: Option<(Body, string)>)
    ensures r.Some? ==> |r.value.1| <= |s|
  {
    if op == SEH then
      match ObjInt(s)
      case None => None
      case Some((kind, s1)) =>
        match CommaInt(s1)
        case None => None
        case Some((begin, s2)) =>
          match ObjChar(s2)
          case None => None
          case Some((c, s3)) => if c == ',' || kind < 0 then None else Some((SehTag(kind, begin != 0), s3))
    else if op == LABEL then
      match UnformatName(s) case None => None case Some((name, rest)) => Some((LabelName(name), rest))
    else if op == COMMENT then
      match UnformatName(s) case None => None case Some((text, rest)) => Some((CommentText(text), rest))
    else if op == SWITCH then
      match ObjInt(s)
      case None => None
      case Some((n, s1)) =>
        match NamesIn(s1, if n < 0 then 0 else n)
        case None => None
        case Some((names, rest)) => Some((SwitchTo(names), rest))
    else
      match OperandIn(s) case None => None case Some((o, rest)) => Some((WithOperand(o), rest))
  }

  // Behind the offset: a comma and a body, or two dollar signs.
  function TailIn(op: int, s: string): (r: Option<(Body, string)>)
    ensures r.Some? ==> |r.value.1| <= |s|
  {
    match ObjChar(s)
    case None => None
    case Some((c, rest)) =>
      if c == ',' then BodyIn(op, rest)
      else if c == '$' then
        match Expect(rest, '$') case None => None case Some(after) => Some((Bare, after))
      else None
  }

  // Behind the opening mark of an instruction.
  function InstrIn(s: string): (r: Option<(Instr, string)>)
    ensures r.Some? ==> |r.value.1| <= |s|
  {
    match ObjInt(s)
    case None => None
    case Some((op, s1)) =>
      match CommaInt(s1)
      case None => None
      case Some((offset, s2)) =>
        match Closed(TailIn(op, s2), 'i')
        case None => None
        case Some((body, rest)) => if 0 <= op < 233 then Some((Instr(op, offset, body), rest)) else None
  }

  // Instructions while a mark opens one; then, from where that was looked
  // for, the closing mark of the list.
  function ListIn(s: string): Option<(seq<Instr>, string)>
    decreases |s|
  {
    match Marked(s, 'b')
    case Some((k, s1)) =>
      if k != 'i' then ListEnd(s)
      else
        (match InstrIn(s1)
         case None => None
         case Some((i, s2)) =>
           match ListIn(s2) case None => None case Some((more, rest)) => Some(([i] + more, rest)))
    case None => ListEnd(s)
  }

  function ListEnd(s: string): Option<(seq<Instr>, string)> {
    match Marked(s, 'e')
    case None => None
    case Some((k, rest)) => if k == 'I' then Some(([], rest)) else None
  }

  // ---- Numbers and names read back ----

  lemma SkipNothing(s: string)
    requires s == [] || !IsSpace(s[0])
    ensures Skip(s) == s
  {
  }

  lemma SkipNewline(s: string)
    ensures Skip(NEWLINE + s) == Skip(s) && ObjChar(NEWLINE + s) == ObjChar(s)
  {
    assert (NEWLINE + s)[1..] == s;
  }

  lemma CharFirst(c: char, s: string)
    requires !IsSpace(c)
    ensures ObjChar([c] + s) == Some((c, s)) && Expect([c] + s, c) == Some(s)
  {
    assert ([c] + s)[1..] == s;
  }

  lemma {:induction false} DigitsRead(n: nat, tail: string)
    ensures Digits(NatText(n) + tail, 0) == Digits(tail, n)
  {
    var d := Digit(n % 10);
    assert IsDigit(d) && !IsSpace(d) && (d - '0') as nat == n % 10;
    if n < 10 {
      CharFirst(d, tail);
    } else {
      assert NatText(n) + tail == NatText(n / 10) + ([d] + tail);
      DigitsRead(n / 10, [d] + tail);
      CharFirst(d, tail);
    }
  }

  // The number ends at the next character, which is no digit.
  predicate EndsNumber(tail: string) {
    var t := Skip(tail);
    t != [] && !IsDigit(t[0])
  }

  // An integer is read back exactly when it fits 64 bits.
  lemma IntReads(n: int, tail: string)
    requires EndsNumber(tail)
    ensures ObjInt(IntText(n) + tail) == Some((ToInt64(n), Skip(tail)))
    ensures ObjInt(IntText(n) + tail) == Some((n, Skip(tail))) <==> Fits64(n)
  {
    Int64IffFits(n);
    hide Digits, NatText, Skip, ObjChar, ToInt64;
    if n < 0 {
      assert IntText(n) + tail == ['-'] + (NatText(-n) + tail);
      CharFirst('-', NatText(-n) + tail);
      NumberEnds(-n, tail);
    } else {
      var s := NatText(n) + tail;
      assert s[0] == NatText(n)[0];
      assert s == [s[0]] + s[1..];
      CharFirst(s[0], s[1..]);
      NumberEnds(n, tail);
    }
  }

  lemma NumberEnds(n: nat, tail: string)
    requires EndsNumber(tail)
    ensures Digits(NatText(n) + tail, 0) == Some((n, Skip(tail)))
  {
    hide NatText;
    DigitsRead(n, tail);
    var t := Skip(tail);
    assert [t[0]] + t[1..] == t;
  }

  lemma HexReads(d: nat, s: string)
    requires d < 16
    ensures ObjHex([HexDigit(d)] + s) == Some((d, s))
  {
    CharFirst(HexDigit(d), s);
  }

  lemma FourHexRead(n: nat, s: string)
    requires n < TWO_16
    ensures ObjHex2(LengthText(n) + s) == Some((n / 256, [HexDigit(n / 16 % 16), HexDigit(n % 16)] + s))
    ensures ObjHex2([HexDigit(n / 16 % 16), HexDigit(n % 16)] + s) == Some((n % 256, s))
  {
    var a, b, c, d := n / 4096, n / 256 % 16, n / 16 % 16, n % 16;
    var low := [HexDigit(c), HexDigit(d)] + s;
    assert LengthText(n) + s == [HexDigit(a), HexDigit(b)] + low;
    TwoHexRead(a, b, low);
    TwoHexRead(c, d, s);
    HexSplit(n);
  }

  lemma TwoHexRead(high: nat, low: nat, s: string)
    requires high < 16 && low < 16
    ensures ObjHex2([HexDigit(high), HexDigit(low)] + s) == Some((high * 16 + low, s))
  {
    hide HexDigit, ObjHex;
    assert [HexDigit(high), HexDigit(low)] + s == [HexDigit(high)] + ([HexDigit(low)] + s);
    HexReads(high, [HexDigit(low)] + s);
    HexReads(low, s);
  }

  lemma HexSplit(n: nat)
    ensures n / 4096 * 16 + n / 256 % 16 == n / 256 && n / 16 % 16 * 16 + n % 16 == n % 256
  {
    var x, y := n / 16, n / 256;
    assert y == x / 16 && n / 4096 == y / 16;
    assert n == 16 * x + n % 16 && x == 16 * y + x % 16 && y == 16 * (y / 16) + y % 16;
  }

  lemma ShortNameReads(name: string, rest: string)
    requires |name| < TWO_16
    ensures UnformatName(FormatName(name) + rest) == Some((name, rest))
  {
    hide ObjHex2, LengthText;
    assert FormatName(name) + rest == LengthText(|name|) + (name + rest);
    FourHexRead(|name|, name + rest);
    assert |name| / 256 * 256 + |name| % 256 == |name|;
    assert (name + rest)[..|name|] == name && (name + rest)[|name|..] == rest;
  }

  // The reader takes the first four digits of a longer length.
  lemma {:induction false} LongLength(n: nat) returns (m: nat, more: string)
    requires n >= TWO_16
    ensures m < TWO_16 && m < n && LengthText(n) == LengthText(m) + more
    decreases n
  {
    if n / 16 < TWO_16 {
      m, more := n / 16, [HexDigit(n % 16)];
    } else {
      var rest;
      m, rest := LongLength(n / 16);
      more := rest + [HexDigit(n % 16)];
    }
  }

  // A name is read back exactly when its length has four digits.
  lemma NameReadsIff(name: string, rest: string)
    ensures UnformatName(FormatName(name) + rest) == Some((name, rest)) <==> |name| < TWO_16
  {
    if |name| < TWO_16 {
      ShortNameReads(name, rest);
    } else {
      hide ObjHex2, LengthText;
      var m, more := LongLength(|name|);
      var tail := more + (name + rest);
      assert FormatName(name) + rest == LengthText(m) + tail;
      FourHexRead(m, tail);
      assert m / 256 * 256 + m % 256 == m;
    }
  }

  lemma CommaNameReads(name: string, rest: string)
    requires |name| < TWO_16
    ensures CommaName("," + FormatName(name) + rest) == Some((name, rest))
  {
    hide UnformatName, FormatName;
    assert "," + FormatName(name) + rest == [','] + (FormatName(name) + rest);
    CharFirst(',', FormatName(name) + rest);
    ShortNameReads(name, rest);
  }

  lemma CommaIntReads(n: int, tail: string)
    requires EndsNumber(tail) && Fits64(n)
    ensures CommaInt("," + IntText(n) + tail) == Some((n, Skip(tail)))
  {
    hide ObjInt, IntText;
    assert "," + IntText(n) + tail == [','] + (IntText(n) + tail);
    CharFirst(',', IntText(n) + tail);
    IntReads(n, tail);
  }

  // ---- Marks ----

  lemma MarkReads(kind: char, side: char, rest: string)
    ensures Marked(['$', kind, side] + rest, side) == Some((kind, rest))
    ensures Skip(NEWLINE + (['$', kind, side] + rest)) == ['$', kind, side] + rest
    ensures Marked(NEWLINE + (['$', kind, side] + rest), side) == Some((kind, rest))
    ensures EndsNumber(['$', kind, side] + rest) && EndsNumber(NEWLINE + (['$', kind, side] + rest))
  {
    var s := ['$', kind, side] + rest;
    SkipNothing(s);
    SkipNewline(s);
    assert s[3..] == rest;
  }

  lemma OtherMark(kind: char, side: char, other: char, rest: string)
    requires side != other
    ensures Marked(NEWLINE + (['$', kind, side] + rest), other).None?
  {
    MarkReads(kind, side, rest);
  }

  // ---- Operands ----

  // Names whose length has four digits; integers of 64 bits.
  predicate ShortName(name: string) { |name| < TWO_16 }

  predicate ShortOperand(o: Operand) {
    match o
    case NoValue => true
    case IntValue(size, n) => Fits64(size) && Fits64(n)
    case StringValue(s) => ShortName(s)
    case LabelValue(name) => ShortName(name)
  }

  const CLOSE_O: string := "\n$oe"

  lemma CloseOperand(rest: string)
    ensures NEWLINE + "$oe" == CLOSE_O
    ensures EndsNumber(CLOSE_O + rest) && Skip(CLOSE_O + rest) == "$oe" + rest
    ensures Marked(CLOSE_O + rest, 'e') == Some(('o', rest)) && Marked("$oe" + rest, 'e') == Some(('o', rest))
  {
    MarkReads('o', 'e', rest);
    assert CLOSE_O + rest == NEWLINE + (['$', 'o', 'e'] + rest);
  }

  function OperandInner(o: Operand): string {
    match o
    case NoValue => IntText(0)
    case IntValue(size, n) => IntText(2) + "," + IntText(size) + "," + IntText(n)
    case StringValue(s) => IntText(4) + "," + FormatName(s)
    case LabelValue(name) => IntText(5) + "," + FormatName(name)
  }

  // The inner text of an operand, up to its closing mark.
  lemma OperandBodyReads(o: Operand, rest: string)
    requires ShortOperand(o)
    ensures Closed(OperandBody(OperandInner(o) + CLOSE_O + rest), 'o') == Some((o, rest))
  {
    hide ObjInt, CommaInt, CommaName, IntText, FormatName, Marked, EndsNumber;
    CloseOperand(rest);
    var tail := CLOSE_O + rest;
    match o {
      case NoValue =>
        assert OperandInner(o) + CLOSE_O + rest == IntText(0) + tail;
        IntReads(0, tail);
      case IntValue(size, n) => IntValueReads(size, n, rest);
      case StringValue(text) =>
        var s1 := "," + FormatName(text) + tail;
        assert OperandInner(o) + CLOSE_O + rest == IntText(4) + s1;
        CommaStarts(FormatName(text) + tail, s1);
        IntReads(4, s1);
        CommaNameReads(text, tail);
      case LabelValue(name) =>
        var s1 := "," + FormatName(name) + tail;
        assert OperandInner(o) + CLOSE_O + rest == IntText(5) + s1;
        CommaStarts(FormatName(name) + tail, s1);
        IntReads(5, s1);
        CommaNameReads(name, tail);
    }
  }

  lemma IntValueReads(size: nat, n: int, rest: string)
    requires Fits64(size) && Fits64(n)
    ensures Closed(OperandBody(OperandInner(IntValue(size, n)) + CLOSE_O + rest), 'o') == Some((IntValue(size, n), rest))
  {
    hide ObjInt, CommaInt, CommaName, IntText, FormatName, Marked, EndsNumber;
    CloseOperand(rest);
    var tail := CLOSE_O + rest;
    var s2 := "," + IntText(n) + tail;
    var s1 := "," + IntText(size) + s2;
    assert OperandInner(IntValue(size, n)) + CLOSE_O + rest == IntText(2) + s1;
    CommaStarts(IntText(size) + s2, s1);
    CommaStarts(IntText(n) + tail, s2);
    IntReads(2, s1);
    CommaIntReads(size, s2);
    CommaIntReads(n, tail);
  }

  lemma CommaStarts(after: string, s: string)
    requires s == [','] + after
    ensures EndsNumber(s) && Skip(s) == s
  {
    SkipNothing(s);
  }

  lemma OperandReads(o: Operand, rest: string)
    requires ShortOperand(o)
    ensures OperandIn(OperandText(o) + rest) == Some((o, rest))
  {
    hide Marked, OperandBody, Closed, IntText, FormatName;
    var inner := OperandInner(o) + CLOSE_O + rest;
    CloseOperand(rest);
    assert OperandText(o) == NEWLINE + "$ob" + OperandInner(o) + (NEWLINE + "$oe");
    assert OperandText(o) + rest == NEWLINE + (['$', 'o', 'b'] + inner);
    MarkReads('o', 'b', inner);
    OperandBodyReads(o, rest);
  }

  // ---- Instructions ----

  predicate ShortNames(names: seq<string>) {
    forall k :: 0 <= k < |names| ==> ShortName(names[k])
  }

  predicate ShortBody(b: Body) {
    match b
    case WithOperand(o) => ShortOperand(o)
    case LabelName(name) => ShortName(name)
    case CommentText(text) => ShortName(text)
    case SwitchTo(names) => ShortNames(names) && Fits64(|names|)
    case SehTag(kind, _) => Fits64(kind)
    case Bare => true
  }

  lemma {:induction false} NamesRead(names: seq<string>, k: nat, rest: string)
    requires ShortNames(names) && k <= |names|
    ensures NamesIn(NamesText(names, k) + rest, |names| - k) == Some((names[k..], rest))
    decreases |names| - k
  {
    hide CommaName, FormatName;
    if k == |names| {
      assert "" + rest == rest;
    } else {
      var tail := NamesText(names, k + 1) + rest;
      assert NamesText(names, k) + rest == "," + FormatName(names[k]) + tail;
      CommaNameReads(names[k], tail);
      NamesRead(names, k + 1, rest);
      assert names[k..] == [names[k]] + names[k + 1..];
    }
  }

  const CLOSE_I: string := "\n$ie"

  lemma CloseInstr(rest: string)
    ensures NEWLINE + "$ie" == CLOSE_I
    ensures EndsNumber(CLOSE_I + rest) && Skip(CLOSE_I + rest) == "$ie" + rest
    ensures Marked(CLOSE_I + rest, 'e') == Some(('i', rest)) && Marked("$ie" + rest, 'e') == Some(('i', rest))
  {
    MarkReads('i', 'e', rest);
    assert CLOSE_I + rest == NEWLINE + (['$', 'i', 'e'] + rest);
  }

  lemma NamesEnd(names: seq<string>, rest: string)
    ensures EndsNumber(NamesText(names, 0) + (CLOSE_I + rest))
    ensures Skip(NamesText(names, 0) + (CLOSE_I + rest)) == if names == [] then "$ie" + rest else NamesText(names, 0) + (CLOSE_I + rest)
  {
    hide FormatName;
    CloseInstr(rest);
    var s := NamesText(names, 0) + (CLOSE_I + rest);
    if names == [] {
      assert s == CLOSE_I + rest;
    } else {
      var after := FormatName(names[0]) + NamesText(names, 1) + (CLOSE_I + rest);
      assert s == [','] + after;
      CommaStarts(after, s);
    }
  }

  // Whatever the body, the text behind the offset gives it back.
  lemma TailReads(i: Instr, rest: string)
    requires Fitting(i) && ShortBody(i.body)
    ensures EndsNumber(BodyText(i.body) + (CLOSE_I + rest))
    ensures Closed(TailIn(i.op, Skip(BodyText(i.body) + (CLOSE_I + rest))), 'i') == Some((i.body, rest))
  {
    hide ObjInt, IntText, FormatName, Marked, OperandIn, UnformatName, OperandText, NamesIn, EndsNumber, CommaInt;
    var tail := CLOSE_I + rest;
    var s := BodyText(i.body) + tail;
    CloseInstr(rest);
    match i.body {
      case Bare => BareReads(i.op, rest);
      case WithOperand(o) =>
        assert s == [','] + (OperandText(o) + tail);
        CommaStarts(OperandText(o) + tail, s);
        CharFirst(',', OperandText(o) + tail);
        OperandReads(o, tail);
      case SehTag(kind, begin) => SehReads(i, rest);
      case LabelName(name) => NameTailReads(i, name, rest);
      case CommentText(text) => NameTailReads(i, text, rest);
      case SwitchTo(names) => SwitchReads(i, names, rest);
    }
  }

  lemma NameTailReads(i: Instr, name: string, rest: string)
    requires Fitting(i) && ShortBody(i.body) && (i.body == LabelName(name) || i.body == CommentText(name))
    ensures EndsNumber(BodyText(i.body) + (CLOSE_I + rest))
    ensures Closed(TailIn(i.op, Skip(BodyText(i.body) + (CLOSE_I + rest))), 'i') == Some((i.body, rest))
  {
    hide ObjInt, IntText, FormatName, Marked, OperandIn, UnformatName, NamesIn, EndsNumber, CommaInt;
    var tail := CLOSE_I + rest;
    var s := BodyText(i.body) + tail;
    CloseInstr(rest);
    assert s == [','] + (FormatName(name) + tail);
    CommaStarts(FormatName(name) + tail, s);
    CharFirst(',', FormatName(name) + tail);
    ShortNameReads(name, tail);
  }

  lemma BareReads(op: int, rest: string)
    ensures EndsNumber("$$" + (CLOSE_I + rest))
    ensures Closed(TailIn(op, Skip("$$" + (CLOSE_I + rest))), 'i') == Some((Bare, rest))
  {
    var tail := CLOSE_I + rest;
    CloseInstr(rest);
    var s := "$$" + tail;
    assert s == ['$'] + (['$'] + tail);
    SkipNothing(s);
    CharFirst('$', ['$'] + tail);
    CharFirst('$', tail);
    hide BodyIn, Marked;
  }

  lemma SehReads(i: Instr, rest: string)
    requires i.op == SEH && i.body.SehTag? && Fits64(i.body.kind)
    ensures EndsNumber(BodyText(i.body) + (CLOSE_I + rest))
    ensures Closed(TailIn(i.op, Skip(BodyText(i.body) + (CLOSE_I + rest))), 'i') == Some((i.body, rest))
  {
    hide ObjInt, IntText, Marked, EndsNumber, CommaInt, OperandIn, UnformatName, NamesIn;
    var tail := CLOSE_I + rest;
    CloseInstr(rest);
    var begin := if i.body.begin then 1 else 0;
    var s3 := "@" + tail;
    var s2 := "," + IntText(begin) + s3;
    var s1 := IntText(i.body.kind) + s2;
    var s := BodyText(i.body) + tail;
    assert s == [','] + s1;
    CommaStarts(s1, s);
    CharFirst(',', s1);
    CommaStarts(IntText(begin) + s3, s2);
    IntReads(i.body.kind, s2);
    AtSign(tail);
    CommaIntReads(begin, s3);
    CharFirst('@', tail);
  }

  lemma AtSign(tail: string)
    ensures EndsNumber("@" + tail) && Skip("@" + tail) == "@" + tail
  {
    SkipNothing("@" + tail);
  }

  lemma SwitchReads(i: Instr, names: seq<string>, rest: string)
    requires i.op == SWITCH && i.body == SwitchTo(names) && ShortNames(names) && Fits64(|names|)
    ensures EndsNumber(BodyText(i.body) + (CLOSE_I + rest))
    ensures Closed(TailIn(i.op, Skip(BodyText(i.body) + (CLOSE_I + rest))), 'i') == Some((i.body, rest))
  {
    hide ObjInt, IntText, Marked, EndsNumber, CommaInt, OperandIn, UnformatName, NamesText;
    var tail := CLOSE_I + rest;
    CloseInstr(rest);
    var s2 := NamesText(names, 0) + tail;
    var s1 := IntText(|names|) + s2;
    var s := BodyText(i.body) + tail;
    assert s == [','] + s1;
    CommaStarts(s1, s);
    CharFirst(',', s1);
    NamesEnd(names, rest);
    IntReads(|names|, s2);
    assert names[0..] == names;
    if names == [] {
      NoNames("$ie" + rest);
    } else {
      NamesRead(names, 0, tail);
    }
  }

  lemma NoNames(s: string)
    ensures NamesIn(s, 0) == Some(([], s))
  {
  }

  lemma InstrReads(i: Instr, rest: string)
    requires Fitting(i) && ShortBody(i.body)
    ensures Marked(InstrText(i) + rest, 'b').Some? && Marked(InstrText(i) + rest, 'b').value.0 == 'i'
    ensures InstrIn(Marked(InstrText(i) + rest, 'b').value.1) == Some((i, rest))
  {
    hide ObjInt, IntText, EndsNumber, CommaInt, BodyText, TailIn, Closed, Marked;
    CloseInstr(rest);
    var tail := BodyText(i.body) + (CLOSE_I + rest);
    var s1 := "," + IntText(i.offset) + tail;
    var s := IntText(i.op) + s1;
    assert InstrText(i) + rest == NEWLINE + (['$', 'i', 'b'] + s);
    MarkReads('i', 'b', s);
    CommaStarts(IntText(i.offset) + tail, s1);
    IntReads(i.op, s1);
    TailReads(i, rest);
    CommaIntReads(i.offset, tail);
  }

  // ---- Lists ----

  ghost predicate Writable(list: seq<Instr>) {
    forall k :: 0 <= k < |list| ==> Fitting(list[k]) && ShortBody(list[k].body)
  }

  // The list is rebuilt, and the reader stops right behind its closing mark,
  // which it looks for from where it last looked for an opening one.
  lemma {:induction false} ListReads(list: seq<Instr>, k: nat, rest: string)
    requires Writable(list) && k <= |list|
    ensures ListIn(ListText(list, k) + rest) == Some((list[k..], rest))
    decreases |list| - k
  {
    hide Marked, InstrIn, InstrText, Fitting, ShortBody;
    if k == |list| {
      assert ListText(list, k) + rest == NEWLINE + (['$', 'I', 'e'] + rest);
      MarkReads('I', 'e', rest);
      OtherMark('I', 'e', 'b', rest);
    } else {
      var tail := ListText(list, k + 1) + rest;
      assert ListText(list, k) + rest == InstrText(list[k]) + tail;
      InstrReads(list[k], tail);
      ListReads(list, k + 1, rest);
      assert list[k..] == [list[k]] + list[k + 1..];
    }
  }

  // ---- The characters that tell operands and tags apart ----

  lemma OneDigit(n: nat)
    requires n < 10
    ensures IntText(n) == ['0' + n as char]
  {
  }

  // Behind the mark that opens an operand stands its kind.
  lemma OperandKinds(o: Operand)
    ensures |OperandText(o)| > 4 && OperandText(o)[..4] == NEWLINE + "$ob"
    ensures OperandText(o)[4] == match o
                                 case NoValue => '0'
                                 case IntValue(_, _) => '2'
                                 case StringValue(_) => '4'
                                 case LabelValue(_) => '5'
  {
    OneDigit(0);
    OneDigit(2);
    OneDigit(4);
    OneDigit(5);
    hide IntText, FormatName;
  }

  // A tag ends with its side, 1 where a block opens and 0 where it closes.
  lemma TagSides(kind: nat, begin: bool)
    ensures var s, n := BodyText(SehTag(kind, begin)), |IntText(kind)|;
            && |s| == n + 4 && s[0] == ',' && s[1..n + 1] == IntText(kind)
            && s[n + 1] == ',' && s[n + 2] == (if begin then '1' else '0') && s[n + 3] == '@'
  {
    OneDigit(0);
    OneDigit(1);
    hide IntText;
  }
}
