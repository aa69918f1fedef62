/**
 The hand-written base64url codec without padding (section 5 of RFC 4648), and the public-key
 check built on it. Shifts and masks are written as division and remainder by powers of two;
 the decoder's 32-bit accumulator wraps and is never masked, as in the code.
 */
module Base64Url {
  import opened Common

  type Byte = b: int | 0 <= b < 256
  type Sextet = v: int | 0 <= v < 64

  /** The alphabet `A-Z a-z 0-9 - _` in order. */
  function Symbol(v: Sextet): (c: char)
    ensures Value(c) == Some(v)
  {
    if v < 26 then ('A' as int + v) as char
    else if v < 52 then ('a' as int + (v - 26)) as char
    else if v < 62 then ('0' as int + (v - 52)) as char
    else if v == 62 then '-'
    else '_'
  }

  /** The position of a character in the alphabet. */
  function Value(c: char): Option<Sextet> {
    if 'A' <= c <= 'Z' then Some(c as int - 'A' as int)
    else if 'a' <= c <= 'z' then Some(c as int - 'a' as int + 26)
    else if '0' <= c <= '9' then Some(c as int - '0' as int + 52)
    else if c == '-' then Some(62)
    else if c == '_' then Some(63)
    else None
  }

  lemma SymbolOfValue(c: char)
    requires Value(c).Some?
    ensures Symbol(Value(c).value) == c
  {
  }

  predicate IsEncoded(s: string) {
    forall i :: 0 <= i < |s| ==> Value(s[i]).Some?
  }

  // ---- encoding ---------------------------------------------------------------------------

  /** The characters of one chunk of one to three bytes. */
  function EncodeChunk(b: seq<Byte>): string
    requires 1 <= |b| <= 3
  {
    var b0 := b[0];
    var b1 := if |b| > 1 then b[1] else 0;
    var b2 := if |b| > 2 then b[2] else 0;
    [Symbol(b0 / 4), Symbol(b0 % 4 * 16 + b1 / 16)]
    + (if |b| > 1 then [Symbol(b1 % 16 * 4 + b2 / 64)] else [])
    + (if |b| > 2 then [Symbol(b2 % 64)] else [])
  }

  function Encode(b: seq<Byte>): string {
    if |b| == 0 then ""
    else if |b| <= 3 then EncodeChunk(b)
    else EncodeChunk(b[..3]) + Encode(b[3..])
  }

  lemma {:induction false} EncodeLength(b: seq<Byte>)
    ensures |Encode(b)| == (4 * |b| + 2) / 3
    ensures IsEncoded(Encode(b))
  {
    hide Symbol, Value;
    if |b| > 3 {
      EncodeLength(b[3..]);
    }
  }

  /** The loop over `chunks(3)`. */
  method EncodeLoop(bytes: seq<Byte>) returns (out: string)
    ensures out == Encode(bytes)
    ensures |out| == (4 * |bytes| + 2) / 3
  {
    hide Symbol, Value, EncodeChunk, Encode;
    EncodeLength(bytes);
    EncodeNothing(bytes);
    out := "";
    var i := 0;
    while i < |bytes|
      invariant 0 <= i <= |bytes|
      invariant out + Encode(bytes[i..]) == Encode(bytes)
    {
      var n := if |bytes| - i < 3 then |bytes| - i else 3;
      var chunk := bytes[i..i + n];
      NextChunk(bytes[i..], n);
      assert bytes[i..][..n] == chunk && bytes[i..][n..] == bytes[i + n..];
      var piece := EncodePiece(chunk);
      Regroup(out, piece, Encode(bytes[i + n..]));
      out := out + piece;
      i := i + n;
    }
  }

  lemma EncodeNothing(b: seq<Byte>)
    ensures Encode(b[|b|..]) == ""
  {
  }

  method EncodePiece(chunk: seq<Byte>) returns (piece: string)
    requires 1 <= |chunk| <= 3
    ensures piece == EncodeChunk(chunk)
  {
    hide Symbol;
    var b0 := chunk[0];
    var b1 := if |chunk| > 1 then chunk[1] else 0;
    var b2 := if |chunk| > 2 then chunk[2] else 0;
    piece := [Symbol(b0 / 4)];
    piece := piece + [Symbol(b0 % 4 * 16 + b1 / 16)];
    if |chunk| > 1 {
      piece := piece + [Symbol(b1 % 16 * 4 + b2 / 64)];
    }
    if |chunk| > 2 {
      piece := piece + [Symbol(b2 % 64)];
    }
  }

  lemma Regroup(a: string, b: string, c: string)
    ensures a + (b + c) == (a + b) + c
  {
  }

  lemma {:induction false} NextChunk(b: seq<Byte>, n: nat)
    requires b != [] && n == (if |b| < 3 then |b| else 3)
    ensures Encode(b) == EncodeChunk(b[..n]) + Encode(b[n..])
  {
    hide EncodeChunk;
    if |b| <= 3 {
      assert b[..n] == b && b[n..] == [];
    }
  }

  // ---- decoding ---------------------------------------------------------------------------

  const TWO32: nat := 0x1_0000_0000

  predicate Pending(count: nat) {
    count == 0 || count == 2 || count == 4 || count == 6
  }

  function Pow2(count: nat): (p: nat)
    ensures p > 0
  {
    if count == 0 then 1 else if count == 2 then 4 else if count == 4 then 16 else 64
  }

  /** The decoder from a 32-bit accumulator of which the low `count` bits are pending. */
  function DecodeFrom(s: string, bits: nat, count: nat): Option<seq<Byte>>
    requires Pending(count)
    decreases |s|
  {
    if s == [] then Some([])
    else
      match Value(s[0])
      case None => None
      case Some(v) =>
        var bits' := bits * 64 % TWO32 + v;
        if count + 6 < 8 then DecodeFrom(s[1..], bits', count + 6)
        else
          match DecodeFrom(s[1..], bits', count - 2)
          case None => None
          case Some(rest) => Some([bits' / Pow2(count - 2) % 256] + rest)
  }

  function Decode(s: string): Option<seq<Byte>> {
    DecodeFrom(s, 0, 0)
  }

  /** The loop over the characters, updating `bits`, `bit_count` and `out`. */
  method DecodeLoop(s: string) returns (r: Option<seq<Byte>>)
    ensures r == Decode(s)
  {
    hide Value, Pow2;
    var bits: nat, count: nat, out: seq<Byte> := 0, 0, [];
    var i := 0;
    while i < |s|
      invariant 0 <= i <= |s| && Pending(count)
      invariant Decode(s).Some? <==> DecodeFrom(s[i..], bits, count).Some?
      invariant Decode(s).Some? ==> Decode(s).value == out + DecodeFrom(s[i..], bits, count).value
    {
      assert s[i..][0] == s[i] && s[i..][1..] == s[i + 1..];
      var v := Value(s[i]);
      if v.None? {
        return None;
      }
      bits := bits * 64 % TWO32 + v.value;
      count := count + 6;
      if count >= 8 {
        count := count - 8;
        out := out + [bits / Pow2(count) % 256];
      }
      i := i + 1;
    }
    assert s[i..] == [] && out + [] == out;
    return Some(out);
  }

  // ---- the accumulator keeps the pending bits -------------------------------------------------

  /** The decoder that keeps nothing but the pending bits. */
  function Exact(s: string, r: nat, count: nat): Option<seq<Byte>>
    requires Pending(count) && r < Pow2(count)
    decreases |s|
  {
    if s == [] then Some([])
    else
      match Value(s[0])
      case None => None
      case Some(v) =>
        var r' := r * 64 + v;
        if count == 0 then Exact(s[1..], r', 6)
        else
          match Exact(s[1..], r' % Pow2(count - 2), count - 2)
          case None => None
          case Some(rest) => Some([r' / Pow2(count - 2)] + rest)
  }

  lemma WrapKeepsLow(bits: nat, v: Sextet, m: nat, k: nat)
    requires m > 0 && m * k * 64 == TWO32
    ensures (bits * 64 % TWO32 + v) % (m * 64) == bits % m * 64 + v
  {
    var q := bits * 64 / TWO32;
    var low := bits % m * 64 + v;
    var a := bits / m;
    assert bits == m * a + bits % m;
    assert bits * 64 == m * 64 * a + bits % m * 64;
    assert bits * 64 % TWO32 == bits * 64 - TWO32 * q;
    assert TWO32 * q == m * 64 * (k * q);
    var n := bits * 64 % TWO32 + v;
    assert n == m * 64 * (a - k * q) + low;
    Remainder(n, m * 64, a - k * q, low);
  }

  lemma Remainder(n: nat, m: nat, q: int, r: nat)
    requires n == m * q + r && r < m
    ensures n % m == r && n / m == q
  {
    var k := n / m - q;
    assert m * k == r - n % m;
    MulBound(m, k);
  }

  lemma MulBound(m: int, k: int)
    requires m >= 0
    ensures k >= 1 ==> m * k >= m
    ensures k <= -1 ==> m * k <= -m
  {
  }

  /** Losing high bits is harmless: the byte emitted depends on the pending bits only. */
  lemma EmitLow(x: nat, p: nat)
    requires p == 1 || p == 4 || p == 16
    ensures x / p % 256 == x % (p * 256) / p
    ensures x % p == x % (p * 256) % p
  {
    if p == 4 {
      EmitLow4(x / 1024, x % 1024);
    } else if p == 16 {
      EmitLow16(x / 4096, x % 4096);
    }
  }

  lemma EmitLow4(q: nat, r: nat)
    requires r < 1024
    ensures (1024 * q + r) / 4 % 256 == r / 4 && (1024 * q + r) % 4 == r % 4
  {
    var h, l := r / 4, r % 4;
    Remainder(1024 * q + r, 4, 256 * q + h, l);
    Remainder(256 * q + h, 256, q, h);
  }

  lemma EmitLow16(q: nat, r: nat)
    requires r < 4096
    ensures (4096 * q + r) / 16 % 256 == r / 16 && (4096 * q + r) % 16 == r % 16
  {
    var h, l := r / 16, r % 16;
    Remainder(4096 * q + r, 16, 256 * q + h, l);
    Remainder(256 * q + h, 256, q, h);
  }

  lemma {:induction false} WrapIsExact(s: string, bits: nat, count: nat)
    requires Pending(count)
    ensures DecodeFrom(s, bits, count) == Exact(s, bits % Pow2(count), count)
    decreases |s|
  {
    if s != [] && Value(s[0]).Some? {
      var v := Value(s[0]).value;
      var bits' := bits * 64 % TWO32 + v;
      WrapStep(bits, v, count);
      WrapIsExact(s[1..], bits', if count == 0 then 6 else count - 2);
    }
  }

  lemma {:induction false} WrapStep(bits: nat, v: Sextet, count: nat)
    requires Pending(count)
    ensures var n := bits * 64 % TWO32 + v;
            var r := bits % Pow2(count) * 64 + v;
            if count == 0 then n % 64 == r
            else n / Pow2(count - 2) % 256 == r / Pow2(count - 2) && n % Pow2(count - 2) == r % Pow2(count - 2)
  {
    var n := bits * 64 % TWO32 + v;
    if count == 0 {
      WrapKeepsLow(bits, v, 1, 0x400_0000);
    } else if count == 2 {
      WrapKeepsLow(bits, v, 4, 0x100_0000);
      EmitLow(n, 1);
    } else if count == 4 {
      WrapKeepsLow(bits, v, 16, 0x40_0000);
      EmitLow(n, 4);
    } else {
      WrapKeepsLow(bits, v, 64, 0x10_0000);
      EmitLow(n, 16);
    }
  }

  // ---- round trips ------------------------------------------------------------------------------

  /** Four characters are three bytes, and nothing is left pending. */
  lemma {:induction false} ExactGroup(s: string, rest: string)
    requires |s| == 4 && IsEncoded(s)
    ensures var a, b, c, d := Value(s[0]).value, Value(s[1]).value, Value(s[2]).value, Value(s[3]).value;
            && Exact(s + rest, 0, 0).Some? == Exact(rest, 0, 0).Some?
            && (Exact(rest, 0, 0).Some? ==>
                  Exact(s + rest, 0, 0).value ==
                  [a * 4 + b / 16, b % 16 * 16 + c / 4, c % 4 * 64 + d] + Exact(rest, 0, 0).value)
  {
    hide Value;
    var a, b, c, d := Value(s[0]).value, Value(s[1]).value, Value(s[2]).value, Value(s[3]).value;
    var t := s + rest;
    assert t[1..][1..][1..][1..] == rest;
    ExactLast(s[3], rest, c % 4);
    assert t[1..][1..] == [s[2]] + ([s[3]] + rest);
    ExactThird(s[2], [s[3]] + rest, b % 16);
    assert t[1..] == [s[1]] + ([s[2]] + ([s[3]] + rest));
    ExactSecond(s[1], [s[2]] + ([s[3]] + rest), a);
  }

  /** The three emitting steps, one by one. */
  lemma {:induction false} ExactSecond(x: char, rest: string, r: nat)
    requires Value(x).Some? && r < 64
    ensures Exact([x] + rest, r, 6) ==
            match Exact(rest, Value(x).value % 16, 4)
            case None => None
            case Some(tail) => Some([r * 4 + Value(x).value / 16] + tail)
  {
    hide Value;
    var v := Value(x).value;
    assert ([x] + rest)[1..] == rest;
    assert (r * 64 + v) / 16 == r * 4 + v / 16 && (r * 64 + v) % 16 == v % 16;
  }

  lemma {:induction false} ExactThird(x: char, rest: string, r: nat)
    requires Value(x).Some? && r < 16
    ensures Exact([x] + rest, r, 4) ==
            match Exact(rest, Value(x).value % 4, 2)
            case None => None
            case Some(tail) => Some([r * 16 + Value(x).value / 4] + tail)
  {
    hide Value;
    var v := Value(x).value;
    assert ([x] + rest)[1..] == rest;
    assert (r * 64 + v) / 4 == r * 16 + v / 4 && (r * 64 + v) % 4 == v % 4;
  }

  lemma {:induction false} ExactLast(x: char, rest: string, r: nat)
    requires Value(x).Some? && r < 4
    ensures Exact([x] + rest, r, 2) ==
            match Exact(rest, 0, 0)
            case None => None
            case Some(tail) => Some([r * 64 + Value(x).value] + tail)
  {
    hide Value;
    assert ([x] + rest)[1..] == rest;
  }

  lemma {:induction false} ExactOne(b: seq<Byte>)
    requires |b| == 1
    ensures Exact(EncodeChunk(b), 0, 0) == Some(b)
  {
    hide Value, Symbol;
    var e := EncodeChunk(b);
    var b0: int := b[0];
    assert Value(e[0]) == Some(b0 / 4) && Value(e[1]) == Some(b0 % 4 * 16);
    assert b0 % 4 * 16 / 16 == b0 % 4;
    assert e[1..] == [e[1]] + "";
    ExactSecond(e[1], "", b0 / 4);
    assert Exact(e[1..], b0 / 4, 6) == Some([b0] + []);
    assert [b0] + [] == b;
  }

  lemma {:induction false} ExactTwo(b: seq<Byte>)
    requires |b| == 2
    ensures Exact(EncodeChunk(b), 0, 0) == Some(b)
  {
    hide Value, Symbol;
    var e := EncodeChunk(b);
    var b0: int, b1: int := b[0], b[1];
    var v1, v2 := b0 % 4 * 16 + b1 / 16, b1 % 16 * 4;
    assert Value(e[0]) == Some(b0 / 4) && Value(e[1]) == Some(v1) && Value(e[2]) == Some(v2);
    assert v1 % 16 == b1 / 16 && v1 / 16 == b0 % 4 && v2 / 4 == b1 % 16 && v2 % 4 == 0;
    assert e[1..] == [e[1]] + ([e[2]] + "");
    ExactThird(e[2], "", b1 / 16);
    assert Exact([e[2]] + "", b1 / 16, 4) == Some([b1] + []);
    ExactSecond(e[1], [e[2]] + "", b0 / 4);
    assert Exact(e[1..], b0 / 4, 6) == Some([b0] + ([b1] + []));
    assert [b0] + ([b1] + []) == b;
  }

  lemma {:induction false} ExactTriple(b: seq<Byte>, rest: seq<Byte>)
    requires |b| == 3 && Exact(Encode(rest), 0, 0) == Some(rest)
    ensures Exact(EncodeChunk(b) + Encode(rest), 0, 0) == Some(b + rest)
  {
    hide Value, Symbol, Encode, Exact;
    ExactGroup(EncodeChunk(b), Encode(rest));
    var b0, b1, b2 := b[0], b[1], b[2];
    assert [b0, b1, b2] == b;
  }

  /** Every byte sequence survives encoding and decoding, wrapped accumulator and all. */
  lemma {:induction false} RoundTrip(b: seq<Byte>)
    ensures Decode(Encode(b)) == Some(b)
  {
    hide EncodeChunk, Exact, DecodeFrom, Value;
    WrapIsExact(Encode(b), 0, 0);
    ExactRoundTrip(b);
  }

  lemma {:induction false} ExactRoundTrip(b: seq<Byte>)
    ensures Exact(Encode(b), 0, 0) == Some(b)
  {
    hide EncodeChunk, Value;
    if |b| == 0 {
    } else if |b| == 1 {
      ExactOne(b);
    } else if |b| == 2 {
      ExactTwo(b);
    } else {
      ExactRoundTrip(b[3..]);
      ExactTriple(b[..3], b[3..]);
      assert b == b[..3] + b[3..];
      NextChunk(b, 3);
    }
  }

  // ---- what decoding loses ------------------------------------------------------------------------

  /** The characters spell whole bytes and their unused low bits are zero. */
  predicate Canonical(s: string)
    requires IsEncoded(s)
  {
    match |s| % 4
    case 0 => true
    case 1 => false
    case 2 => Value(s[|s| - 1]).value % 16 == 0
    case _ => Value(s[|s| - 1]).value % 4 == 0
  }

  /** Decoding accepts exactly the alphabet and drops an incomplete last byte. */
  lemma {:induction false} DecodeLength(s: string)
    ensures Decode(s).Some? <==> IsEncoded(s)
    ensures Decode(s).Some? ==> |Decode(s).value| == |s| * 3 / 4
  {
    hide Value;
    WrapIsExact(s, 0, 0);
    ExactLength(s, 0, 0);
  }

  lemma {:induction false} ExactLength(s: string, r: nat, count: nat)
    requires Pending(count) && r < Pow2(count)
    ensures Exact(s, r, count).Some? <==> IsEncoded(s)
    ensures Exact(s, r, count).Some? ==> |Exact(s, r, count).value| == (|s| * 6 + count) / 8
    decreases |s|
  {
    hide Value;
    if s != [] && Value(s[0]).Some? {
      var v := Value(s[0]).value;
      var r' := r * 64 + v;
      assert IsEncoded(s) <==> IsEncoded(s[1..]) by {
        assert s == [s[0]] + s[1..];
      }
      if count == 0 {
        ExactLength(s[1..], r', 6);
      } else {
        ExactLength(s[1..], r' % Pow2(count - 2), count - 2);
      }
    }
  }

  lemma {:induction false} ReencodeTwo(s: string)
    requires IsEncoded(s) && |s| == 2
    ensures Exact(s, 0, 0).Some?
    ensures Encode(Exact(s, 0, 0).value) == s <==> Canonical(s)
  {
    hide Value, Symbol;
    var a: int, b: int := Value(s[0]).value, Value(s[1]).value;
    assert s[1..] == [s[1]] + "";
    ExactSecond(s[1], "", a);
    var x := a * 4 + b / 16;
    assert Exact(s, 0, 0) == Some([x] + []);
    assert x / 4 == a && x % 4 * 16 == b / 16 * 16;
    ReencodeLow(s[0], a);
    ReencodeLow(s[1], b / 16 * 16);
    assert Encode([x] + []) == [Symbol(a), Symbol(b / 16 * 16)];
  }

  lemma {:induction false} ReencodeThree(s: string)
    requires IsEncoded(s) && |s| == 3
    ensures Exact(s, 0, 0).Some?
    ensures Encode(Exact(s, 0, 0).value) == s <==> Canonical(s)
  {
    hide Value, Symbol;
    var a: int, b: int, c: int := Value(s[0]).value, Value(s[1]).value, Value(s[2]).value;
    assert s[1..] == [s[1]] + ([s[2]] + "");
    ExactThird(s[2], "", b % 16);
    ExactSecond(s[1], [s[2]] + "", a);
    var x, y := a * 4 + b / 16, b % 16 * 16 + c / 4;
    assert Exact(s, 0, 0) == Some([x] + ([y] + []));
    GroupParts(a, b, c, 0);
    assert y % 16 * 4 == c / 4 * 4;
    ReencodeLow(s[0], a);
    ReencodeLow(s[1], b);
    ReencodeLow(s[2], c / 4 * 4);
    assert Encode([x] + ([y] + [])) == [Symbol(a), Symbol(b), Symbol(c / 4 * 4)];
  }

  lemma {:induction false} ReencodeShort(s: string)
    requires IsEncoded(s) && |s| < 4
    ensures Exact(s, 0, 0).Some?
    ensures Encode(Exact(s, 0, 0).value) == s <==> Canonical(s)
  {
    hide Value;
    if |s| == 2 {
      ReencodeTwo(s);
    } else if |s| == 3 {
      ReencodeThree(s);
    }
  }

  lemma {:induction false} CanonicalTail(s: string)
    requires IsEncoded(s) && |s| >= 4
    ensures IsEncoded(s[4..]) && (Canonical(s) <==> Canonical(s[4..]))
  {
    hide Value;
  }

  /** A symbol is determined by its value. */
  lemma ReencodeLow(c: char, v: Sextet)
    requires Value(c).Some?
    ensures Symbol(v) == c <==> v == Value(c).value
  {
    SymbolOfValue(c);
  }

  /** The encoder's four sextets undo the decoder's three bytes. */
  lemma GroupParts(a: int, b: int, c: int, d: int)
    requires 0 <= a < 64 && 0 <= b < 64 && 0 <= c < 64 && 0 <= d < 64
    ensures var x, y, z := a * 4 + b / 16, b % 16 * 16 + c / 4, c % 4 * 64 + d;
            && x / 4 == a && x % 4 * 16 + y / 16 == b && y % 16 * 4 + z / 64 == c && z % 64 == d
            && 0 <= x < 256 && 0 <= y < 256 && 0 <= z < 256
  {
  }

  lemma {:induction false} ReencodeGroup(s: string, rest: seq<Byte>)
    requires |s| == 4 && IsEncoded(s)
    ensures var a, b, c, d := Value(s[0]).value, Value(s[1]).value, Value(s[2]).value, Value(s[3]).value;
            Encode([a * 4 + b / 16, b % 16 * 16 + c / 4, c % 4 * 64 + d] + rest) == s + Encode(rest)
  {
    hide Value, Symbol, Encode;
    var a: int, b: int, c: int, d: int := Value(s[0]).value, Value(s[1]).value, Value(s[2]).value, Value(s[3]).value;
    var g: seq<Byte> := [a * 4 + b / 16, b % 16 * 16 + c / 4, c % 4 * 64 + d];
    SymbolOfValue(s[0]);
    SymbolOfValue(s[1]);
    SymbolOfValue(s[2]);
    SymbolOfValue(s[3]);
    GroupParts(a, b, c, d);
    assert EncodeChunk(g) == s;
    NextChunk(g + rest, 3);
    assert (g + rest)[..3] == g && (g + rest)[3..] == rest;
  }

  /** The other direction, exactly: re-encoding gives the text back if and only if it is
      canonical; otherwise several texts decode to the same bytes. */
  lemma {:induction false} ReencodeIffCanonical(s: string)
    requires IsEncoded(s)
    ensures Decode(s).Some?
    ensures Encode(Decode(s).value) == s <==> Canonical(s)
    decreases |s|
  {
    hide Value, Encode, Exact, DecodeFrom, Canonical;
    WrapIsExact(s, 0, 0);
    if |s| < 4 {
      ReencodeShort(s);
    } else {
      var g, rest := s[..4], s[4..];
      assert s == g + rest;
      CanonicalTail(s);
      ReencodeIffCanonical(rest);
      WrapIsExact(rest, 0, 0);
      ExactGroup(g, rest);
      ReencodeGroup(g, Decode(rest).value);
      SameTail(g, Encode(Decode(rest).value), rest);
    }
  }

  /** A text that decodes and is not what encoding the bytes gives: "AB" and "AA" are both read
      as the zero byte. */
  lemma NonCanonical()
    ensures Decode("AB").Some? && Encode(Decode("AB").value) != "AB"
    ensures Decode("AB") == Decode("AA")
  {
    hide Encode, DecodeFrom;
    ReencodeIffCanonical("AB");
    WrapIsExact("AB", 0, 0);
    WrapIsExact("AA", 0, 0);
    assert "AB"[1..] == "B" && "AA"[1..] == "A" && "B"[1..] == "A"[1..] == "";
  }

  lemma SameTail(g: string, a: string, b: string)
    ensures g + a == g + b <==> a == b
  {
    assert (g + a)[|g|..] == a && (g + b)[|g|..] == b;
  }

  // ---- the public-key check -------------------------------------------------------------------------

  datatype PubkeyResult = Key(bytes: seq<Byte>) | WrongLength(got: nat) | BadAlphabet | DecodeFailed | WrongSize

  /** The payload of a UTF-8 sequence of `n` bytes: what the lead byte has left and six bits per further
      byte (section 3 of RFC 3629). */
  predicate Fits(c: char, n: nat) {
    match n
    case 1 => c as int < 128
    case 2 => c as int < 32 * 64
    case 3 => c as int < 16 * 64 * 64
    case 4 => c as int < 8 * 64 * 64 * 64
    case _ => false
  }

  /** Bytes of a character in UTF-8: the fewest that hold it. */
  function Utf8Len(c: char): (n: nat)
    ensures Fits(c, n) && forall m :: 0 <= m < n ==> !Fits(c, m)
  {
    if c < '\U{0080}' then 1 else if c < '\U{0800}' then 2 else if c < '\U{10000}' then 3 else 4
  }

  function ByteLen(s: string): nat {
    if s == [] then 0 else Utf8Len(s[0]) + ByteLen(s[1..])
  }

  predicate IsPubkeyChar(c: char) {
    'A' <= c <= 'Z' || 'a' <= c <= 'z' || '0' <= c <= '9' || c == '-' || c == '_'
  }

  /** `validate_pubkey`, check by check. */
  function ValidatePubkey(s: string): PubkeyResult {
    if ByteLen(s) != 43 then WrongLength(ByteLen(s))
    else if exists i :: 0 <= i < |s| && !IsPubkeyChar(s[i]) then BadAlphabet
    else
      match Decode(s)
      case None => DecodeFailed
      case Some(b) => if |b| == 32 then Key(b) else WrongSize
  }

  lemma {:induction false} AsciiLen(s: string)
    requires IsEncoded(s)
    ensures ByteLen(s) == |s|
  {
    if s != [] {
      AsciiLen(s[1..]);
    }
  }

  /** A key is accepted if and only if it is 43 characters of the alphabet; any other text is refused
      for its length in bytes or else for its alphabet; the decoding and size errors cannot occur. It is
      the canonical spelling of its bytes if and only if the last character's two unused bits are zero. */
  lemma {:induction false} PubkeyVerdict(s: string)
    ensures ValidatePubkey(s).Key? <==> |s| == 43 && IsEncoded(s)
    ensures !ValidatePubkey(s).DecodeFailed? && !ValidatePubkey(s).WrongSize?
    ensures ValidatePubkey(s).WrongLength? <==> ByteLen(s) != 43
    ensures ValidatePubkey(s).WrongLength? ==> ValidatePubkey(s).got == ByteLen(s)
    ensures ValidatePubkey(s).Key? ==> Decode(s) == Some(ValidatePubkey(s).bytes)
    ensures ValidatePubkey(s).Key? ==>
              (Encode(ValidatePubkey(s).bytes) == s <==> Value(s[42]).value % 4 == 0)
  {
    hide Encode, Decode, ByteLen;
    assert IsEncoded(s) <==> forall i :: 0 <= i < |s| ==> IsPubkeyChar(s[i]);
    DecodeLength(s);
    if IsEncoded(s) {
      AsciiLen(s);
      ReencodeIffCanonical(s);
    }
  }
}
