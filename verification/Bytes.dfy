// Little-endian integers as the writers store them through `*(Word*)`,
// `*(DWord*)` and `*(longlong*)`, and the option type shared by all modules.
module Bytes {

  type byte = x: int | 0 <= x < 256

  datatype Option<+T> = None | Some(value: T)

  const TWO_16 := 0x1_0000
  const TWO_32 := 0x1_0000_0000
  const TWO_64 := 0x1_0000_0000_0000_0000

  // The low 16 bits of v; a negative v is stored in two's complement.
  function Le2(v: int): (s: seq<byte>)
    ensures |s| == 2
  {
    [v % 256, v / 256 % 256]
  }

  function Le4(v: int): (s: seq<byte>)
    ensures |s| == 4
  {
    Le2(v) + Le2(v / TWO_16)
  }

  function Le8(v: int): (s: seq<byte>)
    ensures |s| == 8
  {
    Le4(v) + Le4(v / TWO_32)
  }

  function Word(s: seq<byte>): (v: int)
    requires |s| >= 2
    ensures 0 <= v < TWO_16
  {
    var lo: int, hi: int := s[0], s[1];
    lo + 256 * hi
  }

  function DWord(s: seq<byte>): (v: int)
    requires |s| >= 4
    ensures 0 <= v < TWO_32
  {
    Word(s) + TWO_16 * Word(s[2..])
  }

  function QWord(s: seq<byte>): (v: int)
    requires |s| >= 8
    ensures 0 <= v < TWO_64
  {
    DWord(s) + TWO_32 * DWord(s[4..])
  }

  // Reading a bit pattern below 2m as a two's complement number.
  function Signed(v: int, m: int): int {
    if v < m then v else v - 2 * m
  }

  function ToInt8(v: int): int { Signed(v % 0x100, 0x80) }

  function ToInt32(v: int): int { Signed(v % TWO_32, 0x8000_0000) }

  function ToInt64(v: int): int { Signed(v % TWO_64, 0x8000_0000_0000_0000) }

  lemma Le2Word(v: int, rest: seq<byte>)
    ensures Word(Le2(v) + rest) == v % TWO_16
  {
    assert v / 256 == 256 * (v / 256 / 256) + v / 256 % 256;
  }

  lemma Le4DWord(v: int, rest: seq<byte>)
    ensures DWord(Le4(v) + rest) == v % TWO_32
  {
    hide Le2, Word;
    var s := Le4(v) + rest;
    assert s == Le2(v) + (Le2(v / TWO_16) + rest);
    assert s[2..] == Le2(v / TWO_16) + rest;
    Le2Word(v, Le2(v / TWO_16) + rest);
    Le2Word(v / TWO_16, rest);
    SplitAt16(v);
  }

  lemma SplitAt16(v: int)
    ensures v % TWO_32 == v % TWO_16 + TWO_16 * (v / TWO_16 % TWO_16)
  {
    var high := v / TWO_16;
    var q, r := high / TWO_16, high % TWO_16;
    assert v == TWO_16 * high + v % TWO_16;
    assert high == TWO_16 * q + r;
    assert v == TWO_32 * q + (TWO_16 * r + v % TWO_16);
  }

  lemma SplitAt32(v: int)
    ensures v % TWO_64 == v % TWO_32 + TWO_32 * (v / TWO_32 % TWO_32)
  {
    var high := v / TWO_32;
    var q, r := high / TWO_32, high % TWO_32;
    assert v == TWO_32 * high + v % TWO_32;
    assert high == TWO_32 * q + r;
    assert v == TWO_64 * q + (TWO_32 * r + v % TWO_32);
  }

  lemma Le8QWord(v: int, rest: seq<byte>)
    ensures QWord(Le8(v) + rest) == v % TWO_64
  {
    hide Le4, DWord;
    var s := Le8(v) + rest;
    assert s == Le4(v) + (Le4(v / TWO_32) + rest);
    assert s[4..] == Le4(v / TWO_32) + rest;
    Le4DWord(v, Le4(v / TWO_32) + rest);
    Le4DWord(v / TWO_32, rest);
    SplitAt32(v);
  }

  // ---- Reading a value back from the middle of a byte string ----

  lemma ReadLe2(code: seq<byte>, at: nat, v: int)
    requires at + 2 <= |code| && code[at..at + 2] == Le2(v)
    ensures Word(code[at..]) == v % TWO_16
  {
    assert code[at..] == Le2(v) + code[at + 2..];
    Le2Word(v, code[at + 2..]);
  }

  lemma ReadLe4(code: seq<byte>, at: nat, v: int)
    requires at + 4 <= |code| && code[at..at + 4] == Le4(v)
    ensures DWord(code[at..]) == v % TWO_32
    ensures ToInt32(DWord(code[at..])) == ToInt32(v)
    ensures -0x8000_0000 <= v < 0x8000_0000 ==> ToInt32(v) == v
  {
    hide Le4, DWord;
    assert code[at..] == Le4(v) + code[at + 4..];
    Le4DWord(v, code[at + 4..]);
  }

  lemma ReadLe8(code: seq<byte>, at: nat, v: int)
    requires at + 8 <= |code| && code[at..at + 8] == Le8(v)
    ensures ToInt64(QWord(code[at..])) == ToInt64(v)
  {
    hide Le8, QWord;
    assert code[at..] == Le8(v) + code[at + 8..];
    Le8QWord(v, code[at + 8..]);
  }

  // ---- Quotients ----

  lemma DivAdd(m: nat, p: nat, c: nat)
    requires p > 0
    ensures (m + p * c) / p == m / p + c
  {
    assert m == p * (m / p) + m % p;
    assert m + p * c == p * (m / p + c) + m % p;
    DivUnique(m + p * c, p, m / p + c, m % p);
  }

  lemma DivUnique(x: nat, p: nat, q: nat, r: nat)
    requires p > 0 && x == p * q + r && r < p
    ensures x / p == q
  {
    var d := x / p - q;
    assert x == p * (x / p) + x % p;
    assert p * d == r - x % p;
    TimesBound(p, d);
  }

  lemma TimesBound(p: int, d: int)
    requires p > 0
    ensures d >= 1 ==> p * d >= p
    ensures d <= -1 ==> p * d <= -p
  {
  }

  lemma ModAddTimes(m: nat, p: nat, c: nat)
    requires p > 0
    ensures (m + p * c) % p == m % p
  {
    DivAdd(m, p, c);
    assert m == p * (m / p) + m % p;
    assert m + p * c == p * (m / p + c) + (m + p * c) % p;
    assert p * (m / p + c) == p * (m / p) + p * c;
  }
}
