/**
 The standard base64 alphabet with mandatory padding and zero trailing bits (section 4 of
 RFC 4648), as the `STANDARD` engine decodes it.
 */
module Base64Std {
  import opened Common

  type Byte = b: int | 0 <= b < 256

  predicate IsAlphabet(c: char) {
    'A' <= c <= 'Z' || 'a' <= c <= 'z' || '0' <= c <= '9' || c == '+' || c == '/'
  }

  function Sextet(c: char): (v: nat)
    requires IsAlphabet(c)
    ensures v < 64
  {
    if 'A' <= c <= 'Z' then c as int - 'A' as int
    else if 'a' <= c <= 'z' then c as int - 'a' as int + 26
    else if '0' <= c <= '9' then c as int - '0' as int + 52
    else if c == '+' then 62
    else 63
  }

  /** The three bytes that four sextets spell. */
  function High(a: nat, b: nat): Byte
    requires a < 64 && b < 64
  {
    a * 4 + b / 16
  }

  function Middle(b: nat, c: nat): Byte
    requires b < 64 && c < 64
  {
    b % 16 * 16 + c / 4
  }

  function Low(c: nat, d: nat): Byte
    requires c < 64 && d < 64
  {
    c % 4 * 64 + d
  }

  predicate IsGroupChar(c: char) {
    IsAlphabet(c) || c == '='
  }

  /** The bytes of one group of four characters; only the last group may be padded. */
  function DecodeGroup(g: string, last: bool): (r: Option<seq<Byte>>)
    requires |g| == 4
    ensures r.Some? ==> IsGroupChar(g[0]) && IsGroupChar(g[1]) && IsGroupChar(g[2]) && IsGroupChar(g[3])
    ensures r.Some? ==> 1 <= |r.value| <= 3 && (!last ==> |r.value| == 3)
  {
    if !IsAlphabet(g[0]) || !IsAlphabet(g[1]) then None
    else
      var a, b := Sextet(g[0]), Sextet(g[1]);
      if IsAlphabet(g[2]) && IsAlphabet(g[3]) then
        var c, d := Sextet(g[2]), Sextet(g[3]);
        Some([High(a, b), Middle(b, c), Low(c, d)])
      else if last && IsAlphabet(g[2]) && g[3] == '=' && Sextet(g[2]) % 4 == 0 then
        Some([High(a, b), Middle(b, Sextet(g[2]))])
      else if last && g[2] == '=' && g[3] == '=' && b % 16 == 0 then
        Some([High(a, b)])
      else None
  }

  function Decode(s: string): (r: Option<seq<Byte>>)
    ensures r.Some? ==> forall c :: c in s ==> IsGroupChar(c)
    decreases |s|
  {
    if s == [] then Some([])
    else if |s| < 4 then None
    else
      match DecodeGroup(s[..4], |s| == 4)
      case None => None
      case Some(bytes) =>
        assert s == [s[0], s[1], s[2], s[3]] + s[4..];
        match Decode(s[4..])
        case None => None
        case Some(rest) => Some(bytes + rest)
  }
}
