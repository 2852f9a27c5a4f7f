/**
  UTF-8 as Rust's standard library treats it (section 3 of RFC 3629):
  `String::from_utf8` accepts exactly the well-formed byte sequences and reports,
  on failure, `valid_up_to`, the length of the longest valid prefix; `fs::write`
  of a `String` writes its UTF-8 bytes.
*/
module Utf8 {
  import opened Wrappers

  type byte = x: int | 0 <= x < 256

  /** A continuation byte, 10xxxxxx. */
  predicate IsCont(x: byte) {
    0x80 <= x <= 0xBF
  }

  /** The bytes of one Unicode scalar value. */
  function EncodeScalar(c: char): (r: seq<byte>)
    ensures 1 <= |r| <= 4
  {
    var n := c as int;
    if n < 0x80 then [n]
    else if n < 0x800 then [0xC0 + n / 0x40, 0x80 + n % 0x40]
    else if n < 0x1_0000 then [0xE0 + n / 0x1000, 0x80 + n / 0x40 % 0x40, 0x80 + n % 0x40]
    else [0xF0 + n / 0x4_0000, 0x80 + n / 0x1000 % 0x40, 0x80 + n / 0x40 % 0x40, 0x80 + n % 0x40]
  }

  /** The bytes of a string, scalar after scalar. */
  function Encode(s: string): (r: seq<byte>)
    ensures |s| <= |r| <= 4 * |s|
  {
    if s == [] then [] else EncodeScalar(s[0]) + Encode(s[1..])
  }

  /**
    The scalar value that the well-formed sequence at the head of `b` encodes, with the
    sequence's length; None when the head of `b` is not well formed (a stray continuation
    byte, an overlong form, a surrogate, a value above U+10FFFF, or a truncated sequence).
  */
  function DecodeScalar(b: seq<byte>): (r: Option<(char, nat)>)
    requires b != []
    ensures r.Some? ==> 1 <= r.value.1 <= |b| && r.value.1 <= 4
  {
    var b0 := b[0] as int;
    if b0 < 0x80 then
      Some((b0 as char, 1))
    else if 0xC2 <= b0 <= 0xDF then
      if 2 <= |b| && IsCont(b[1]) then
        Some((((b0 - 0xC0) * 0x40 + (b[1] as int - 0x80)) as char, 2))
      else None
    else if 0xE0 <= b0 <= 0xEF then
      var lo := if b0 == 0xE0 then 0xA0 else 0x80;
      var hi := if b0 == 0xED then 0x9F else 0xBF;
      if 3 <= |b| && lo <= b[1] <= hi && IsCont(b[2]) then
        Some((((b0 - 0xE0) * 0x1000 + (b[1] as int - 0x80) * 0x40 + (b[2] as int - 0x80)) as char, 3))
      else None
    else if 0xF0 <= b0 <= 0xF4 then
      var lo := if b0 == 0xF0 then 0x90 else 0x80;
      var hi := if b0 == 0xF4 then 0x8F else 0xBF;
      if 4 <= |b| && lo <= b[1] <= hi && IsCont(b[2]) && IsCont(b[3]) then
        Some((((b0 - 0xF0) * 0x4_0000 + (b[1] as int - 0x80) * 0x1000 + (b[2] as int - 0x80) * 0x40 + (b[3] as int - 0x80)) as char, 4))
      else None
    else
      None
  }

  /**
    `String::from_utf8`: the decoded string, or `Err(valid_up_to)` naming the offset at
    which the first ill-formed sequence starts.
  */
  function Decode(b: seq<byte>): (r: Result<string, nat>)
    ensures r.Err? ==> r.error < |b|
    ensures r.Ok? ==> |r.value| <= |b|
  {
    if b == [] then Ok([])
    else
      match DecodeScalar(b)
      case None => Err(0)
      case Some((c, w)) =>
        match Decode(b[w..])
        case Ok(s) => Ok([c] + s)
        case Err(k) => Err(w + k)
  }

  lemma DivModUnique(n: int, d: int, q: int, m: int)
    requires d in {0x40, 0x1000, 0x4_0000} && 0 <= m < d && n == q * d + m
    ensures n / d == q && n % d == m
  {
    if d == 0x40 {
      assert n == q * 0x40 + m;
    } else if d == 0x1000 {
      assert n == q * 0x1000 + m;
    } else {
      assert n == q * 0x4_0000 + m;
    }
  }

  /** Decoding the encoding of a scalar gives it back, whatever follows it. */
  lemma EncodeScalarDecodes(c: char, rest: seq<byte>)
    ensures DecodeScalar(EncodeScalar(c) + rest) == Some((c, |EncodeScalar(c)|))
  {
    var n := c as int;
    if n < 0x80 {
    } else if n < 0x800 {
      EncodeTwoDecodes(c, rest);
    } else if n < 0x1_0000 {
      EncodeThreeDecodes(c, rest);
    } else {
      EncodeFourDecodes(c, rest);
    }
  }

  lemma EncodeTwoDecodes(c: char, rest: seq<byte>)
    requires 0x80 <= c as int < 0x800
    ensures DecodeScalar(EncodeScalar(c) + rest) == Some((c, 2))
  {
    var n := c as int;
    var b := EncodeScalar(c) + rest;
    var a, m := n / 0x40, n % 0x40;
    DivModUnique(n, 0x40, a, m);
    assert b[0] == 0xC0 + a && b[1] == 0x80 + m;
    assert (b[0] as int - 0xC0) * 0x40 + (b[1] as int - 0x80) == n;
  }

  lemma EncodeThreeDecodes(c: char, rest: seq<byte>)
    requires 0x800 <= c as int < 0x1_0000
    ensures DecodeScalar(EncodeScalar(c) + rest) == Some((c, 3))
  {
    var n := c as int;
    var b := EncodeScalar(c) + rest;
    var q, m := n / 0x40, n % 0x40;
    var a, k := q / 0x40, q % 0x40;
    DivModUnique(n, 0x40, q, m);
    DivModUnique(q, 0x40, a, k);
    DivModUnique(n, 0x1000, a, k * 0x40 + m);
    assert b[0] == 0xE0 + a && b[1] == 0x80 + k && b[2] == 0x80 + m;
    assert (b[0] as int - 0xE0) * 0x1000 + (b[1] as int - 0x80) * 0x40 + (b[2] as int - 0x80) == n;
  }

  lemma EncodeFourDecodes(c: char, rest: seq<byte>)
    requires 0x1_0000 <= c as int
    ensures DecodeScalar(EncodeScalar(c) + rest) == Some((c, 4))
  {
    var n := c as int;
    var b := EncodeScalar(c) + rest;
    var q, m := n / 0x40, n % 0x40;
    var q2, k := q / 0x40, q % 0x40;
    var a, j := q2 / 0x40, q2 % 0x40;
    DivModUnique(n, 0x40, q, m);
    DivModUnique(q, 0x40, q2, k);
    DivModUnique(q2, 0x40, a, j);
    DivModUnique(n, 0x1000, q2, k * 0x40 + m);
    DivModUnique(n, 0x4_0000, a, j * 0x1000 + k * 0x40 + m);
    assert b[0] == 0xF0 + a && b[1] == 0x80 + j && b[2] == 0x80 + k && b[3] == 0x80 + m;
    assert (b[0] as int - 0xF0) * 0x4_0000 + (b[1] as int - 0x80) * 0x1000
      + (b[2] as int - 0x80) * 0x40 + (b[3] as int - 0x80) == n;
  }

  /** A well-formed head of `b` is exactly the encoding of the scalar it decodes to. */
  lemma DecodeScalarEncodes(b: seq<byte>)
    requires b != [] && DecodeScalar(b).Some?
    ensures var (c, w) := DecodeScalar(b).value; b[..w] == EncodeScalar(c)
  {
    var w := DecodeScalar(b).value.1;
    if w == 2 {
      DecodeTwoEncodes(b);
    } else if w == 3 {
      DecodeThreeEncodes(b);
    } else if w == 4 {
      DecodeFourEncodes(b);
    }
  }

  lemma DecodeTwoEncodes(b: seq<byte>)
    requires b != [] && DecodeScalar(b).Some? && DecodeScalar(b).value.1 == 2
    ensures b[..2] == EncodeScalar(DecodeScalar(b).value.0)
  {
    var n := DecodeScalar(b).value.0 as int;
    DivModUnique(n, 0x40, b[0] as int - 0xC0, b[1] as int - 0x80);
  }

  lemma DecodeThreeEncodes(b: seq<byte>)
    requires b != [] && DecodeScalar(b).Some? && DecodeScalar(b).value.1 == 3
    ensures b[..3] == EncodeScalar(DecodeScalar(b).value.0)
  {
    var n := DecodeScalar(b).value.0 as int;
    var x, y, z := b[0] as int - 0xE0, b[1] as int - 0x80, b[2] as int - 0x80;
    assert n == x * 0x1000 + y * 0x40 + z;
    DivModUnique(n, 0x40, x * 0x40 + y, z);
    DivModUnique(n, 0x1000, x, y * 0x40 + z);
    DivModUnique(n / 0x40, 0x40, x, y);
  }

  lemma DecodeFourEncodes(b: seq<byte>)
    requires b != [] && DecodeScalar(b).Some? && DecodeScalar(b).value.1 == 4
    ensures b[..4] == EncodeScalar(DecodeScalar(b).value.0)
  {
    var n := DecodeScalar(b).value.0 as int;
    var x, y, z, t := b[0] as int - 0xF0, b[1] as int - 0x80, b[2] as int - 0x80, b[3] as int - 0x80;
    assert n == x * 0x4_0000 + y * 0x1000 + z * 0x40 + t;
    DivModUnique(n, 0x40, x * 0x1000 + y * 0x40 + z, t);
    DivModUnique(n / 0x40, 0x40, x * 0x40 + y, z);
    DivModUnique(n, 0x1000, x * 0x40 + y, z * 0x40 + t);
    DivModUnique(n / 0x1000, 0x40, x, y);
    DivModUnique(n, 0x4_0000, x, y * 0x1000 + z * 0x40 + t);
  }

  /** The head decoding looks at no byte past the sequence it accepts. */
  lemma DecodeScalarPrefix(b: seq<byte>, n: nat)
    requires b != [] && DecodeScalar(b).Some? && DecodeScalar(b).value.1 <= n <= |b|
    ensures DecodeScalar(b[..n]) == DecodeScalar(b)
  {
    var w := DecodeScalar(b).value.1;
    assert b[..n][..w] == b[..w];
  }

  /** Every string survives a trip through its UTF-8 bytes. */
  lemma {:induction false} DecodeEncode(s: string)
    ensures Decode(Encode(s)) == Ok(s)
  {
    if s != [] {
      var e := EncodeScalar(s[0]);
      var b := Encode(s);
      assert b == e + Encode(s[1..]);
      EncodeScalarDecodes(s[0], Encode(s[1..]));
      assert b[|e|..] == Encode(s[1..]);
      DecodeEncode(s[1..]);
      assert [s[0]] + s[1..] == s;
    }
  }

  lemma EncodeCons(c: char, t: string)
    ensures Encode([c] + t) == EncodeScalar(c) + Encode(t)
  {
    assert ([c] + t)[1..] == t;
  }

  /** Bytes that start with the encoding of `c` and go on with the encoding of `t` encode `[c] + t`. */
  lemma EncodeStep(b: seq<byte>, c: char, w: nat, t: string)
    requires w <= |b| && b[..w] == EncodeScalar(c) && Encode(t) == b[w..]
    ensures Encode([c] + t) == b
  {
    EncodeCons(c, t);
    assert b[..w] + b[w..] == b;
  }

  /** A decoding of non-empty bytes is the head scalar followed by the decoding of the rest. */
  lemma DecodeStep(b: seq<byte>)
    requires b != [] && Decode(b).Ok?
    ensures DecodeScalar(b).Some? && Decode(b[DecodeScalar(b).value.1..]).Ok?
    ensures Decode(b).value == [DecodeScalar(b).value.0] + Decode(b[DecodeScalar(b).value.1..]).value
  {
  }

  /** A byte sequence that decodes is the encoding of what it decodes to. */
  lemma {:induction false} EncodeDecode(b: seq<byte>)
    requires Decode(b).Ok?
    ensures Encode(Decode(b).value) == b
  {
    if b != [] {
      DecodeStep(b);
      var c, w := DecodeScalar(b).value.0, DecodeScalar(b).value.1;
      var rest := b[w..];
      var t := Decode(rest).value;
      DecodeScalarEncodes(b);
      EncodeDecode(rest);
      EncodeStep(b, c, w, t);
    }
  }

  /**
    On failure, `valid_up_to` is exact: the bytes before it decode, and the sequence that
    starts there is ill-formed.
  */
  lemma {:induction false} ValidUpTo(b: seq<byte>)
    requires Decode(b).Err?
    ensures var k := Decode(b).error; Decode(b[..k]).Ok? && DecodeScalar(b[k..]).None?
  {
    var k := Decode(b).error;
    match DecodeScalar(b)
    case None =>
      assert b[k..] == b;
    case Some((c, w)) =>
      var rest := b[w..];
      var j := Decode(rest).error;
      ValidUpTo(rest);
      assert k == w + j;
      assert rest[j..] == b[k..];
      DecodeScalarPrefix(b, k);
      assert b[..k][w..] == rest[..j];
  }
}
