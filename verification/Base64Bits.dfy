/**
 What the base64url texts mean: the bits of the bytes, six at a time, in the alphabet's order.
 */
module Base64Bits {
  import opened Common
  import opened Text
  import opened Base64Url

  /** The value of a character is its position in the alphabet. */
  lemma Alphabet(c: char, v: nat)
    ensures Value(c) == Some(v) <==>
            || (v < 26 && UPPER[v] == c) || (26 <= v < 52 && LOWER[v - 26] == c)
            || (52 <= v < 64 && "0123456789-_"[v - 52] == c)
  {
    hide Value;
    if v < 26 {
      UpperCase(c, v);
    } else if v < 52 {
      LowerCase(c, v - 26);
    } else {
      OtherSymbols(c, v);
    }
  }

  lemma UpperCase(c: char, v: nat)
    requires v < 26
    ensures UPPER[v] == c <==> Value(c) == Some(v)
  {
    assert UPPER[v] as int == 'A' as int + v;
  }

  lemma LowerCase(c: char, v: nat)
    requires v < 26
    ensures LOWER[v] == c <==> Value(c) == Some(v + 26)
  {
    assert LOWER[v] as int == 'a' as int + v;
  }

  lemma OtherSymbols(c: char, v: nat)
    requires 52 <= v
    ensures Value(c) == Some(v) <==> v < 64 && "0123456789-_"[v - 52] == c
  {
  }

  // ---- bits ---------------------------------------------------------------------------------------

  /** The low `k` bits of a number, highest first. */
  function BitsOf(n: nat, k: nat): (r: seq<nat>)
    ensures |r| == k
  {
    if k == 0 then [] else BitsOf(n / 2, k - 1) + [n % 2]
  }

  function ByteBits(b: seq<Byte>): (r: seq<nat>)
    ensures |r| == 8 * |b|
  {
    if b == [] then [] else BitsOf(b[0], 8) + ByteBits(b[1..])
  }

  function TextBits(s: string): (r: seq<nat>)
    requires IsEncoded(s)
    ensures |r| == 6 * |s|
  {
    if s == [] then [] else BitsOf(Value(s[0]).value, 6) + TextBits(s[1..])
  }

  lemma {:induction false} CutTwo(n: nat, k: nat)
    ensures BitsOf(n, k + 2) == BitsOf(n / 4, k) + BitsOf(n % 4, 2)
  {
    assert n / 2 / 2 == n / 4 && n % 4 / 2 % 2 == n / 2 % 2 && n % 4 % 2 == n % 2;
    assert BitsOf(n % 4, 2) == [n / 2 % 2] + [n % 2];
    assert BitsOf(n, k + 2) == BitsOf(n / 4, k) + [n / 2 % 2] + [n % 2];
  }

  lemma {:induction false} CutFour(n: nat, k: nat)
    ensures BitsOf(n, k + 4) == BitsOf(n / 16, k) + BitsOf(n % 16, 4)
  {
    hide BitsOf;
    CutTwo(n, k + 2);
    CutTwo(n / 4, k);
    CutTwo(n % 16, 2);
    assert n / 4 / 4 == n / 16 && n % 16 % 4 == n % 4 && n % 16 / 4 == n / 4 % 4;
    assert BitsOf(n / 16, k) + BitsOf(n / 4 % 4, 2) + BitsOf(n % 4, 2)
        == BitsOf(n / 16, k) + (BitsOf(n / 4 % 4, 2) + BitsOf(n % 4, 2));
  }

  lemma {:induction false} CutSix(n: nat, k: nat)
    ensures BitsOf(n, k + 6) == BitsOf(n / 64, k) + BitsOf(n % 64, 6)
  {
    hide BitsOf;
    CutFour(n, k + 2);
    CutTwo(n / 16, k);
    CutFour(n % 64, 2);
    assert n / 16 / 4 == n / 64 && n % 64 % 16 == n % 16 && n % 64 / 16 == n / 16 % 4;
    assert BitsOf(n / 64, k) + BitsOf(n / 16 % 4, 2) + BitsOf(n % 16, 4)
        == BitsOf(n / 64, k) + (BitsOf(n / 16 % 4, 2) + BitsOf(n % 16, 4));
  }

  // ---- decoding -----------------------------------------------------------------------------------

  /** The pending bits and one more symbol are one byte and the next pending bits. */
  lemma {:induction false} Emit(r: nat, count: nat, v: Sextet)
    requires Pending(count) && r < Pow2(count)
    ensures BitsOf(r, count) + BitsOf(v, 6) == BitsOf(r * 64 + v, count + 6)
    ensures count > 0 ==>
              BitsOf(r * 64 + v, count + 6) ==
              BitsOf((r * 64 + v) / Pow2(count - 2), 8) + BitsOf((r * 64 + v) % Pow2(count - 2), count - 2)
    ensures if count == 0 then r * 64 + v < Pow2(6) else (r * 64 + v) / Pow2(count - 2) < 256
  {
    hide BitsOf;
    var n := r * 64 + v;
    CutSix(n, count);
    assert n / 64 == r && n % 64 == v;
    match count
    case 0 =>
    case 2 => NoBits(n);
    case 4 => CutTwo(n, 8);
    case _ => CutFour(n, 8);
  }

  lemma NoBits(n: nat)
    ensures BitsOf(n, 8) + BitsOf(n % 1, 0) == BitsOf(n, 8)
  {
  }

  /** One symbol on top of pending bits: a byte and the next pending bits. */
  lemma {:induction false} NextByte(s: string, r: nat, count: nat) returns (head: Byte, low: nat)
    requires Pending(count) && r < Pow2(count) && count > 0 && IsEncoded(s) && s != ""
    ensures low < Pow2(count - 2)
    ensures Exact(s, r, count) ==
            match Exact(s[1..], low, count - 2) case None => None case Some(rest) => Some([head] + rest)
    ensures BitsOf(r, count) + TextBits(s) == BitsOf(head, 8) + BitsOf(low, count - 2) + TextBits(s[1..])
  {
    hide BitsOf, Value, TextBits;
    var v := Value(s[0]).value;
    var n := r * 64 + v;
    Emit(r, count, v);
    FirstSymbol(s, r, count, n);
    head, low := n / Pow2(count - 2), n % Pow2(count - 2);
  }

  lemma {:induction false} ExactBits(s: string, r: nat, count: nat)
    requires Pending(count) && r < Pow2(count) && IsEncoded(s)
    ensures Exact(s, r, count).Some? && ByteBits(Exact(s, r, count).value) <= BitsOf(r, count) + TextBits(s)
    decreases |s|
  {
    if s == [] {
      NoBytes();
    } else if count == 0 {
      hide BitsOf, Value, ByteBits, TextBits;
      var v := Value(s[0]).value;
      Emit(r, count, v);
      FirstSymbol(s, r, count, r * 64 + v);
      ExactBits(s[1..], r * 64 + v, 6);
    } else {
      hide BitsOf, Value, ByteBits, TextBits, Exact, Pow2;
      var head, low := NextByte(s, r, count);
      ExactBits(s[1..], low, count - 2);
      FirstByte(head, Exact(s[1..], low, count - 2).value, BitsOf(low, count - 2), TextBits(s[1..]));
    }
  }

  lemma NoBytes()
    ensures ByteBits([]) == []
  {
  }

  lemma {:induction false} FirstSymbol(s: string, r: nat, count: nat, n: nat)
    requires IsEncoded(s) && s != ""
    requires BitsOf(r, count) + BitsOf(Value(s[0]).value, 6) == BitsOf(n, count + 6)
    ensures BitsOf(r, count) + TextBits(s) == BitsOf(n, count + 6) + TextBits(s[1..])
  {
    hide BitsOf, Value;
    Assoc(BitsOf(r, count), BitsOf(Value(s[0]).value, 6), TextBits(s[1..]));
  }

  lemma {:induction false} FirstByte(head: Byte, rest: seq<Byte>, low: seq<nat>, tail: seq<nat>)
    requires ByteBits(rest) <= low + tail
    ensures ByteBits([head] + rest) <= BitsOf(head, 8) + low + tail
  {
    hide BitsOf;
    assert ([head] + rest)[1..] == rest;
    Assoc(BitsOf(head, 8), low, tail);
  }

  /** The bits of the decoded bytes are the bits of the text, from the first on. */
  lemma {:induction false} DecodedBits(s: string)
    requires IsEncoded(s)
    ensures Decode(s).Some? && |Decode(s).value| == |s| * 3 / 4 && ByteBits(Decode(s).value) <= TextBits(s)
  {
    hide Exact, DecodeFrom, Value, TextBits, ByteBits;
    WrapIsExact(s, 0, 0);
    DecodeLength(s);
    ExactBits(s, 0, 0);
    assert BitsOf(0, 0) + TextBits(s) == TextBits(s);
  }

  // ---- encoding -----------------------------------------------------------------------------------

  lemma {:induction false} LastSymbol(s: string)
    requires IsEncoded(s) && s != ""
    ensures TextBits(s) == TextBits(s[..|s| - 1]) + BitsOf(Value(s[|s| - 1]).value, 6)
  {
    hide BitsOf, Value;
    if |s| == 1 {
      assert s[1..] == "" && s[..0] == "";
    } else {
      LastSymbol(s[1..]);
      assert s[1..][..|s| - 2] == s[..|s| - 1][1..];
      assert s[..|s| - 1][0] == s[0];
    }
  }

  lemma {:induction false} ZeroBits(v: Sextet)
    ensures v % 4 == 0 ==> BitsOf(v, 6)[4..] == [0, 0]
    ensures v % 16 == 0 ==> BitsOf(v, 6)[2..] == [0, 0, 0, 0]
  {
    CutTwo(v, 4);
    CutFour(v, 2);
    assert BitsOf(0, 2) == [0, 0] && BitsOf(0, 4) == [0, 0, 0, 0];
  }

  /** How many bits an encoding has beyond those of the bytes, and on which symbol they are. */
  lemma SpareBits(n: nat)
    ensures var e := (4 * n + 2) / 3;
            && 8 * n <= 6 * e < 8 * n + 6
            && (6 * e - 8 * n == 0 || (6 * e - 8 * n == 2 && e % 4 == 3) || (6 * e - 8 * n == 4 && e % 4 == 2))
  {
    var q, r := n / 3, n % 3;
    assert n == 3 * q + r;
  }

  lemma {:induction false} SpareZeros(s: string, spare: nat)
    requires IsEncoded(s) && s != "" && Canonical(s)
    requires (spare == 2 && |s| % 4 == 3) || (spare == 4 && |s| % 4 == 2)
    ensures forall k :: 6 * |s| - spare <= k < 6 * |s| ==> TextBits(s)[k] == 0
  {
    hide Value, BitsOf, TextBits;
    LastSymbol(s);
    var v := Value(s[|s| - 1]).value;
    ZeroBits(v);
    var init, last := TextBits(s[..|s| - 1]), BitsOf(v, 6);
    forall k | 6 * |s| - spare <= k < 6 * |s|
      ensures TextBits(s)[k] == 0
    {
      assert TextBits(s)[k] == last[k - |init|] == last[6 - spare..][k - |init| - (6 - spare)];
    }
  }

  /** The text has the bits of the bytes, and after them fewer than six zeros. */
  lemma {:induction false} EncodedBits(b: seq<Byte>)
    ensures IsEncoded(Encode(b)) && ByteBits(b) <= TextBits(Encode(b))
    ensures var bits := TextBits(Encode(b));
            |bits| < 8 * |b| + 6 && forall k :: 8 * |b| <= k < |bits| ==> bits[k] == 0
  {
    hide Encode, Decode, Value, BitsOf, TextBits, ByteBits, Canonical;
    var s := Encode(b);
    EncodeLength(b);
    RoundTrip(b);
    DecodedBits(s);
    ReencodeIffCanonical(s);
    SpareBits(|b|);
    if 6 * |s| != 8 * |b| {
      SpareZeros(s, 6 * |s| - 8 * |b|);
    }
  }
}
