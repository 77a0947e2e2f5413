// Compressed integers (section II.23.2 of ECMA-335), as blob lengths and as
// the elements of signatures.
module Compression {
  import opened Bytes

  const LIMIT := 0x2000_0000

  function Compressed(v: nat): (s: seq<byte>)
    ensures |s| == if v <= 0x7f then 1 else if v <= 0x3fff then 2 else 4
  {
    if v > 0x3fff then [v / 0x100_0000 % 32 + 0xc0, v / TWO_16 % 256, v / 256 % 256, v % 256]
    else if v > 0x7f then [v / 256 + 0x80, v % 256]
    else [v]
  }

  // An integer and what follows it.
  function LoadIndex(s: seq<byte>): (r: Option<(nat, seq<byte>)>)
    ensures |s| >= 4 ==> r.Some?
    ensures r.Some? ==> |r.value.1| < |s|
  {
    if |s| < 1 then None
    else
      var b0: int := s[0];
      if b0 < 0x80 then Some((b0, s[1..]))
      else if b0 < 0xc0 then
        if |s| < 2 then None
        else
          var b1: int := s[1];
          Some(((b0 - 0x80) * 256 + b1, s[2..]))
      else if |s| < 4 then None
      else
        var b1: int, b2: int, b3: int := s[1], s[2], s[3];
        Some(((b0 - 0xc0) * 0x100_0000 + b1 * TWO_16 + b2 * 256 + b3, s[4..]))
  }

  // A prefix code, faithful exactly below 2^29.
  lemma IndexLoads(v: nat, rest: seq<byte>)
    ensures var loaded := LoadIndex(Compressed(v) + rest);
            && loaded == Some((v % LIMIT, rest))
            && (v % LIMIT == v <==> v < LIMIT)
  {
    var s := Compressed(v) + rest;
    if v > 0x3fff {
      FourBytes(v);
      assert s[0] == v / 0x100_0000 % 32 + 0xc0 && s[1] == v / TWO_16 % 256 && s[2] == v / 256 % 256 && s[3] == v % 256;
      assert s[4..] == rest;
    } else if v > 0x7f {
      assert s[2..] == rest;
    } else {
      assert s[1..] == rest;
    }
  }

  lemma FourBytes(v: nat)
    ensures v / 0x100_0000 % 32 * 0x100_0000 + v / TWO_16 % 256 * TWO_16 + v / 256 % 256 * 256 + v % 256 == v % LIMIT
  {
    var a, b, c, d := v / 256, v / TWO_16, v / 0x100_0000, v / LIMIT;
    assert b == a / 256 && c == b / 256 && d == c / 32;
    assert v == 256 * a + v % 256 && a == 256 * b + a % 256 && b == 256 * c + b % 256 && c == 32 * d + c % 32;
    assert v == LIMIT * d + v % LIMIT;
  }
}
