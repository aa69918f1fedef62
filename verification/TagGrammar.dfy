/**
 Which single tags an I-class value may hold, by spelling.
 */
module TagGrammar {
  import opened Common
  import opened Text
  import opened Params

  lemma {:induction false} OneTag(body: string)
    requires '>' !in body
    ensures ITagOk("<" + body + ">") <==> ConfStringOk(body) && TagBodyOk(body)
  {
    hide ConfStringOk, TagBodyOk;
    var value := "<" + body + ">";
    NextTagHere(body, "");
    assert value + "" == value;
    assert Scan(value, false) <==> TagBodyOk(body) && Scan("", true);
    Brackets(body);
  }

  lemma {:induction false} Brackets(body: string)
    ensures ConfStringOk("<" + body + ">") <==> ConfStringOk(body)
  {
    var value := "<" + body + ">";
    assert forall i :: 0 <= i < |body| ==> body[i] == value[i + 1];
  }

  lemma {:induction false} OneTagWith(key: string, arg: string)
    requires ' ' !in key && '>' !in key && '>' !in arg
    ensures ITagOk("<" + key + " " + arg + ">") <==> ConfStringOk(key) && ConfStringOk(arg) && TagOk(key, Some(arg))
  {
    hide TagOk, Scan, SplitOnce;
    var body := key + [' '] + arg;
    assert "<" + key + " " + arg + ">" == "<" + body + ">";
    OneTag(body);
    SplitOnceUnique(key, ' ', arg);
    assert ConfStringOk(body) <==> ConfStringOk(key) && ConfStringOk(arg) by {
      assert forall i :: 0 <= i < |key| ==> body[i] == key[i];
      assert forall i :: 0 <= i < |arg| ==> body[|key| + 1 + i] == arg[i];
    }
  }

  /** A tag without an argument is accepted for three keys. */
  lemma {:induction false} BareTag(key: string)
    requires ' ' !in key && '>' !in key
    ensures ITagOk("<" + key + ">") <==> key in {"t", "d", "ds"}
  {
    hide Scan;
    OneTag(key);
  }

  /** The same three keys ignore an argument; no key accepts one beyond them, the lengths and `b`. */
  lemma {:induction false} ArgumentTag(key: string, arg: string)
    requires ' ' !in key && '>' !in key && '>' !in arg
    requires key !in {"r", "rc", "rd", "dz", "b"}
    ensures ITagOk("<" + key + " " + arg + ">") <==>
            key in {"t", "d", "ds"} && forall i :: 0 <= i < |arg| ==> arg[i] !in {'\n', '\r', '[', ']'}
  {
    hide Scan, ITagOk;
    OneTagWith(key, arg);
  }

  /** Four keys take a length that fits sixteen bits, with or without a plus sign. */
  lemma {:induction false} LengthTag(key: string, sign: string, n: nat)
    requires key in {"r", "rc", "rd", "dz"} && sign in {"", "+"}
    ensures ITagOk("<" + key + " " + (sign + Digits(n)) + ">") <==> n <= 65535
  {
    hide Scan, ITagOk, Digits, NatValue;
    var arg := sign + Digits(n);
    DigitsValue(n);
    assert forall i :: 0 <= i < |Digits(n)| ==> IsDigit(Digits(n)[i]);
    assert ConfStringOk(arg);
    assert (if arg[0] == '+' then arg[1..] else arg) == Digits(n);
    OneTagWith(key, arg);
  }

  /** Nothing but an optional plus sign and digits is a length. */
  lemma {:induction false} LengthIsDigits(key: string, arg: string) returns (sign: string, digits: string)
    requires key in {"r", "rc", "rd", "dz"} && '>' !in arg && ITagOk("<" + key + " " + arg + ">")
    ensures arg == sign + digits && sign in {"", "+"}
    ensures digits != "" && forall i :: 0 <= i < |digits| ==> digits[i] in "0123456789"
  {
    hide Scan, ITagOk, NatValue;
    OneTagWith(key, arg);
    sign, digits := if arg[0] == '+' then "+" else "", if arg[0] == '+' then arg[1..] else arg;
    assert arg == sign + digits;
    forall i | 0 <= i < |digits|
      ensures digits[i] in "0123456789"
    {
      assert IsDigit(digits[i]);
    }
  }

  /** The bytes tag takes an even, non-empty run of hex digits after an optional `0x`. */
  lemma {:induction false} HexTag(arg: string)
    requires '>' !in arg
    ensures ITagOk("<b " + arg + ">") <==>
            exists digits :: (arg == digits || arg == "0x" + digits) && IsHexRun(digits)
  {
    hide Scan, ITagOk, IsHexRun, HexDigitsOk;
    assert "<" + "b" + " " + arg + ">" == "<b " + arg + ">";
    OneTagWith("b", arg);
    var digits := if "0x" <= arg then arg[2..] else arg;
    HexRun(arg);
    assert arg == digits || arg == "0x" + digits;
    HexRun(digits);
    assert ITagOk("<b " + arg + ">") <==> ConfStringOk(arg) && IsHexRun(digits);
    if IsHexRun(digits) {
      assert exists run :: (arg == run || arg == "0x" + run) && IsHexRun(run);
    }
    forall run | (arg == run || arg == "0x" + run) && IsHexRun(run)
      ensures run == digits && ConfStringOk(arg)
    {
      assert "0x" <= arg ==> arg[1] == 'x';
      HexRun(run);
    }
  }

  predicate IsHexRun(digits: string) {
    digits != "" && |digits| % 2 == 0 && forall i :: 0 <= i < |digits| ==> digits[i] in "0123456789abcdefABCDEF"
  }

  lemma {:induction false} HexRun(s: string)
    ensures IsHexRun(s) <==> HexDigitsOk(s)
    ensures |s| >= 2 && s[1] == 'x' ==> !IsHexRun(s)
    ensures IsHexRun(s) ==> ConfStringOk(s)
  {
    forall c: char
      ensures IsHexDigit(c) <==> c in "0123456789abcdefABCDEF"
    {
    }
    assert forall i :: 0 <= i < |s| && IsHexDigit(s[i]) ==> !ForbiddenChar(s[i]);
  }

  // ---- ranges -------------------------------------------------------------------------------------

  /** A run of digits within 64 bits. */
  predicate IsNumber(s: string) {
    s != "" && AllDigits(s) && NatValue(s) <= 0xffff_ffff_ffff_ffff
  }

  predicate IsRange(lo: string, hi: string) {
    IsNumber(lo) && IsNumber(hi) && NatValue(lo) <= NatValue(hi)
  }

  /** A range value is one number, or two in order with a hyphen between them. */
  lemma {:induction false} RangeText(s: string)
    ensures RangeStringOk(s) <==> IsNumber(s) || exists lo, hi :: s == lo + "-" + hi && IsRange(lo, hi)
  {
    hide NatValue, SplitOnce;
    DigitsParse(s);
    if '-' in s {
      var (lo, hi) := SplitOnce(s, '-').value;
      DigitsParse(lo);
      DigitsParse(hi);
      assert s == lo + "-" + hi;
      assert s[|lo|] == '-';
      forall a, b | s == a + "-" + b && IsRange(a, b)
        ensures a == lo && b == hi
      {
        SplitOnceUnique(a, '-', b);
      }
    }
    forall a, b | s == a + "-" + b && IsRange(a, b)
      ensures '-' in s && ConfStringOk(s)
    {
      assert s[|a|] == '-';
      assert forall i :: 0 <= i < |s| ==> s[i] == '-' || IsDigit(s[i]);
    }
  }

  lemma DigitsParse(s: string)
    ensures s != "" && AllDigits(s) && ParseU64(s).Some? <==> IsNumber(s)
    ensures IsNumber(s) ==> ParseU64(s) == Some(NatValue(s)) && ConfStringOk(s)
  {
    hide NatValue;
    assert s != "" && AllDigits(s) ==> IsDigit(s[0]);
  }
}
