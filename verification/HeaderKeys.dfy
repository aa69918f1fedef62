/**
 Which texts are header-protection keys, and which of them is the inactive one.
 */
module HeaderKeys {
  import opened Common
  import opened Text
  import opened Params
  import opened Base64Std

  /** The number of padding characters at the end. */
  function Pads(s: string): (n: nat)
    ensures n <= |s|
  {
    if |s| < 4 || s[|s| - 1] != '=' then 0 else if s[|s| - 2] != '=' then 1 else 2
  }

  /** Whole groups, padding only at the end, and no bit set that the padding cuts off. */
  predicate IsPadded(s: string) {
    && |s| % 4 == 0
    && (forall i :: 0 <= i < |s| - Pads(s) ==> IsAlphabet(s[i]))
    && (Pads(s) == 1 ==> Sextet(s[|s| - 2]) % 4 == 0)
    && (Pads(s) == 2 ==> Sextet(s[|s| - 3]) % 16 == 0)
  }

  lemma {:induction false} PaddedTail(s: string)
    requires |s| > 4
    ensures IsPadded(s) <==> (forall i :: 0 <= i < 4 ==> IsAlphabet(s[i])) && IsPadded(s[4..])
    ensures |s| % 4 == 0 ==> Pads(s) == Pads(s[4..])
  {
    hide Sextet, IsAlphabet;
    if |s| >= 8 {
      assert forall i :: 4 <= i < |s| ==> s[i] == s[4..][i - 4];
    }
  }

  lemma {:induction false} LastGroup(g: string)
    requires |g| == 4
    ensures DecodeGroup(g, true).Some? <==> IsPadded(g)
    ensures DecodeGroup(g, true).Some? ==> |DecodeGroup(g, true).value| == 3 - Pads(g)
  {
    hide Sextet, High, Middle, Low;
  }

  lemma {:induction false} DecodeStep(s: string)
    requires |s| > 4
    ensures Decode(s).Some? <==> (forall i :: 0 <= i < 4 ==> IsAlphabet(s[i])) && Decode(s[4..]).Some?
    ensures Decode(s).Some? ==> Decode(s).value == DecodeGroup(s[..4], false).value + Decode(s[4..]).value
  {
    hide Sextet, High, Middle, Low, IsAlphabet;
    var g := s[..4];
    assert g[0] == s[0] && g[1] == s[1] && g[2] == s[2] && g[3] == s[3];
  }

  lemma DecodeLast(g: string)
    requires |g| == 4
    ensures Decode(g) == DecodeGroup(g, true)
  {
    hide DecodeGroup;
    assert g[..4] == g && g[4..] == "" && Decode("") == Some([]);
    assert DecodeGroup(g, true).Some? ==> DecodeGroup(g, true).value + [] == DecodeGroup(g, true).value;
  }

  /** The decoder accepts exactly the padded texts and loses one byte per padding character. */
  lemma {:induction false} DecodeIffPadded(s: string)
    ensures Decode(s).Some? <==> IsPadded(s)
    ensures Decode(s).Some? ==> |Decode(s).value| == |s| / 4 * 3 - Pads(s)
    decreases |s|
  {
    if |s| > 4 {
      hide Decode, IsPadded, IsAlphabet, Pads, DecodeGroup;
      PaddedTail(s);
      DecodeStep(s);
      DecodeIffPadded(s[4..]);
      PaddedLength(s);
    } else if |s| == 4 {
      hide Decode, IsPadded, IsAlphabet, Pads, DecodeGroup;
      LastGroup(s);
      DecodeLast(s);
    }
  }

  lemma PaddedLength(s: string)
    ensures IsPadded(s) ==> |s| % 4 == 0
  {
  }

  // ---- the inactive key ---------------------------------------------------------------------------

  predicate AllZero(b: seq<Byte>) {
    forall i :: 0 <= i < |b| ==> b[i] == 0
  }

  predicate OnlyAs(s: string) {
    forall i :: 0 <= i < |s| ==> s[i] == 'A'
  }

  lemma ZeroAppend(a: seq<Byte>, b: seq<Byte>)
    ensures AllZero(a + b) <==> AllZero(a) && AllZero(b)
  {
    assert forall i :: 0 <= i < |a| ==> a[i] == (a + b)[i];
    assert forall i :: 0 <= i < |b| ==> b[i] == (a + b)[|a| + i];
  }

  lemma OnlyAppend(a: string, b: string)
    ensures OnlyAs(a + b) <==> OnlyAs(a) && OnlyAs(b)
  {
    assert forall i :: 0 <= i < |a| ==> a[i] == (a + b)[i];
    assert forall i :: 0 <= i < |b| ==> b[i] == (a + b)[|a| + i];
  }

  lemma FirstSymbol(c: char)
    requires IsAlphabet(c)
    ensures Sextet(c) == 0 <==> c == 'A'
  {
  }

  lemma HighZero(a: nat, b: nat)
    requires a < 64 && b < 64
    ensures High(a, b) == 0 <==> a == 0 && b < 16
  {
  }

  lemma MiddleZero(b: nat, c: nat)
    requires b < 64 && c < 64
    ensures Middle(b, c) == 0 <==> b % 16 == 0 && c < 4
  {
    var x := b % 16;
    assert Middle(b, c) == x * 16 + c / 4;
  }

  lemma LowZero(c: nat, d: nat)
    requires c < 64 && d < 64
    ensures Low(c, d) == 0 <==> c % 4 == 0 && d == 0
  {
    var x := c % 4;
    assert Low(c, d) == x * 64 + d;
  }

  lemma {:induction false} FullGroupZero(g: string, last: bool)
    requires |g| == 4 && IsAlphabet(g[0]) && IsAlphabet(g[1]) && IsAlphabet(g[2]) && IsAlphabet(g[3])
    ensures AllZero(DecodeGroup(g, last).value) <==> OnlyAs(g)
  {
    hide Sextet, IsAlphabet, AllZero, OnlyAs, High, Middle, Low;
    HighZero(Sextet(g[0]), Sextet(g[1]));
    MiddleZero(Sextet(g[1]), Sextet(g[2]));
    LowZero(Sextet(g[2]), Sextet(g[3]));
    FirstSymbol(g[0]);
    FirstSymbol(g[1]);
    FirstSymbol(g[2]);
    FirstSymbol(g[3]);
    ZeroTriple(High(Sextet(g[0]), Sextet(g[1])), Middle(Sextet(g[1]), Sextet(g[2])),
               Low(Sextet(g[2]), Sextet(g[3])));
    OnlyFour(g);
  }

  lemma ZeroTriple(x: Byte, y: Byte, z: Byte)
    ensures AllZero([x, y, z]) <==> x == 0 && y == 0 && z == 0
  {
    assert [x, y, z][0] == x && [x, y, z][1] == y && [x, y, z][2] == z;
  }

  lemma OnlyFour(g: string)
    requires |g| == 4
    ensures OnlyAs(g) <==> g[0] == 'A' && g[1] == 'A' && g[2] == 'A' && g[3] == 'A'
    ensures OnlyAs(g[..3]) <==> g[0] == 'A' && g[1] == 'A' && g[2] == 'A'
    ensures OnlyAs(g[..2]) <==> g[0] == 'A' && g[1] == 'A'
  {
    assert g[..3][0] == g[0] && g[..3][1] == g[1] && g[..3][2] == g[2];
    assert g[..2][0] == g[0] && g[..2][1] == g[1];
  }

  lemma {:induction false} LastGroupZero(g: string)
    requires |g| == 4 && DecodeGroup(g, true).Some?
    ensures AllZero(DecodeGroup(g, true).value) <==> OnlyAs(g[..4 - Pads(g)])
  {
    hide Sextet, OnlyAs, AllZero, High, Middle, Low;
    OnlyFour(g);
    assert g[..4] == g;
    if g[3] != '=' {
      FullGroupZero(g, true);
    } else {
      hide IsAlphabet;
      NotASymbol();
      FirstSymbol(g[0]);
      FirstSymbol(g[1]);
      ZeroFew(High(Sextet(g[0]), Sextet(g[1])), 0);
      HighZero(Sextet(g[0]), Sextet(g[1]));
      if g[2] != '=' {
        MiddleZero(Sextet(g[1]), Sextet(g[2]));
        FirstSymbol(g[2]);
        ZeroFew(High(Sextet(g[0]), Sextet(g[1])), Middle(Sextet(g[1]), Sextet(g[2])));
      }
    }
  }

  lemma NotASymbol()
    ensures !IsAlphabet('=')
  {
  }

  lemma ZeroFew(x: Byte, y: Byte)
    ensures AllZero([x]) <==> x == 0
    ensures AllZero([x, y]) <==> x == 0 && y == 0
  {
    assert [x][0] == x && [x, y][0] == x && [x, y][1] == y;
  }

  /** All bytes are zero exactly when every symbol is the first of the alphabet. */
  lemma {:induction false} ZerosAreAs(s: string)
    requires Decode(s).Some?
    ensures AllZero(Decode(s).value) <==> OnlyAs(s[..|s| - Pads(s)])
    decreases |s|
  {
    if |s| > 4 {
      hide Decode, AllZero, OnlyAs, DecodeGroup, IsPadded, Pads, IsAlphabet;
      DecodeIffPadded(s);
      PaddedTail(s);
      PaddedLength(s);
      DecodeStep(s);
      ZerosAreAs(s[4..]);
      var g, rest := s[..4], s[4..][..|s| - 4 - Pads(s)];
      assert g[0] == s[0] && g[1] == s[1] && g[2] == s[2] && g[3] == s[3];
      FullGroupZero(g, false);
      ZeroAppend(DecodeGroup(g, false).value, Decode(s[4..]).value);
      OnlyAppend(g, rest);
      assert s[..|s| - Pads(s)] == g + rest;
    } else if |s| == 4 {
      DecodeLast(s);
      LastGroupZero(s);
    }
  }

  // ---- keys ---------------------------------------------------------------------------------------

  predicate IsSymbol(c: char) {
    c in UPPER || c in LOWER || c in DIGITS || c in "+/"
  }

  lemma SymbolText(c: char)
    ensures IsAlphabet(c) <==> IsSymbol(c)
  {
    InUpper(c);
    InLower(c);
    InDigits(c);
  }

  lemma LowBitsText(c: char)
    requires IsAlphabet(c)
    ensures Sextet(c) % 4 == 0 <==> c in "AEIMQUYcgkosw048"
  {
  }

  lemma {:induction false} AllSymbols(s: string, n: nat)
    requires n <= |s|
    ensures (forall i :: 0 <= i < n ==> IsAlphabet(s[i])) <==> forall i :: 0 <= i < n ==> IsSymbol(s[i])
  {
    hide IsAlphabet, IsSymbol;
    forall i | 0 <= i < n
      ensures IsAlphabet(s[i]) <==> IsSymbol(s[i])
    {
      SymbolText(s[i]);
    }
  }

  lemma PaddedIsClean(s: string)
    ensures IsPadded(s) ==> ConfStringOk(s)
  {
    hide Sextet;
  }

  /** 43 characters of the alphabet, the last of them with its two low bits clear, and one padding
      character. */
  predicate IsKey(s: string) {
    && |s| == 44 && s[43] == '='
    && (forall i :: 0 <= i < 43 ==> IsSymbol(s[i]))
    && s[42] in "AEIMQUYcgkosw048"
  }

  /** 43 letters A and the padding character. */
  predicate IsOffKey(s: string) {
    |s| == 44 && s[43] == '=' && forall i :: 0 <= i < 43 ==> s[i] == 'A'
  }

  lemma {:induction false} KeyText(s: string)
    ensures HpkOk(s) <==> IsKey(s)
  {
    hide Decode, Sextet, IsAlphabet, IsSymbol, ConfStringOk;
    DecodeIffPadded(s);
    PaddedIsClean(s);
    if |s| == 44 {
      AllSymbols(s, 43);
      NotASymbol();
      if IsAlphabet(s[42]) {
        LowBitsText(s[42]);
      }
    }
  }

  /** Every text counts as an active key but one. */
  lemma {:induction false} InactiveKey(s: string)
    ensures !HpkIsActive(s) <==> IsOffKey(s)
  {
    hide Decode;
    DecodeIffPadded(s);
    if Decode(s).Some? {
      ZerosAreAs(s);
    }
  }
}
