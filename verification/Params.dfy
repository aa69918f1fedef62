/**
 The epoch payload and the grammar of every value the agent may write into the conf.
 Integers are unbounded: each validator states the bound the code checks.
 */
module Params {
  import opened Common
  import opened Text
  import Base64Std

  /** An H-class message type: one tag or an inclusive range. */
  datatype IntOrRange = Single(n: int) | Range(lo: int, hi: int)

  datatype AwgParams = AwgParams(
    jc: Option<int>,
    jmin: Option<int>,
    jmax: Option<int>,
    s1: int,
    s2: int,
    s3: Option<int>,
    s4: int,
    h1: IntOrRange,
    h2: IntOrRange,
    h3: IntOrRange,
    h4: IntOrRange,
    i1: Option<string>,
    i2: Option<string>,
    i3: Option<string>,
    i4: Option<string>,
    i5: Option<string>,
    headerProtectionKey: Option<string>,
    contentPaddingAddition: Option<string>,
    rekeyAfterTime: Option<string>,
    rekeyTimeout: Option<string>,
    rejectAfterTime: Option<string>,
    keepaliveTimeout: Option<string>,
    maxHandshakeAttempts: Option<string>,
    randomTrailers: Option<bool>,
    disableCookies: Option<bool>)

  /** `str::split_once`: the text before and after the first `c`. */
  function SplitOnce(s: string, c: char): (r: Option<(string, string)>)
    ensures r.Some? <==> c in s
    ensures r.Some? ==> s == r.value.0 + [c] + r.value.1 && c !in r.value.0
  {
    var i := Find(s, c);
    if i < |s| then Some((s[..i], s[i + 1..])) else None
  }

  lemma SplitOnceUnique(a: string, c: char, b: string)
    requires c !in a
    ensures SplitOnce(a + [c] + b, c) == Some((a, b))
  {
    FindUnique(a, c, b);
    var s := a + [c] + b;
    assert s[..|a|] == a && s[|a| + 1..] == b;
  }

  /** `IntOrRange::parse`: shape only, no bounds beyond those of `i64`. */
  function ParseIntOrRange(s: string): (r: Option<IntOrRange>)
  {
    match SplitOnce(s, '-')
    case Some((lo, hi)) =>
      (match (ParseI64(lo), ParseI64(hi))
       case (Some(l), Some(h)) => Some(Range(l, h))
       case _ => None)
    case None =>
      match ParseI64(s)
      case Some(n) => Some(Single(n))
      case None => None
  }

  /** The spelling of `Serialize for IntOrRange` (a bare number or `lo-hi`). */
  function ShowIntOrRange(v: IntOrRange): string {
    match v
    case Single(n) => Show(n)
    case Range(lo, hi) => Show(lo) + "-" + Show(hi)
  }

  /** Both members are `i64` values. */
  predicate InI64(v: IntOrRange) {
    match v
    case Single(n) => I64_MIN <= n <= I64_MAX
    case Range(lo, hi) => I64_MIN <= lo <= I64_MAX && I64_MIN <= hi <= I64_MAX
  }

  function First(v: IntOrRange): int {
    match v
    case Single(n) => n
    case Range(lo, _) => lo
  }

  /** `parse` undoes the spelling exactly when the first number has no minus sign, which it
      would take for the separator. */
  lemma ParseOfShowIntOrRange(v: IntOrRange)
    requires InI64(v)
    ensures ParseIntOrRange(ShowIntOrRange(v)) == if First(v) >= 0 then Some(v) else None
  {
    hide ParseI64, Show;
    if First(v) < 0 {
      LeadingMinus(v);
    } else {
      match v
      case Single(n) => ParseOfShow(n);
      case Range(lo, hi) =>
        ParseOfShow(lo);
        ParseOfShow(hi);
        SplitOnceUnique(Show(lo), '-', Show(hi));
    }
  }

  lemma LeadingMinus(v: IntOrRange)
    requires First(v) < 0
    ensures ParseIntOrRange(ShowIntOrRange(v)) == None
  {
    var s := ShowIntOrRange(v);
    assert s[0] == '-';
    assert "" + ['-'] + s[1..] == s;
    SplitOnceUnique("", '-', s[1..]);
    assert ParseI64("") == None;
  }

  /** The value in an epoch document: a number stays a number, a range becomes a string. */
  datatype Repr = Number(n: int) | Quoted(s: string)

  function Serialize(v: IntOrRange): Repr {
    match v
    case Single(n) => Number(n)
    case Range(_, _) => Quoted(ShowIntOrRange(v))
  }

  function Deserialize(r: Repr): Option<IntOrRange> {
    match r
    case Number(n) => Some(Single(n))
    case Quoted(s) => ParseIntOrRange(s)
  }

  /** Every single number survives the document, and a range exactly when its lower bound is not
      negative. */
  lemma DocumentRoundTrip(v: IntOrRange)
    requires InI64(v)
    ensures Deserialize(Serialize(v)) == Some(v) <==> (v.Range? ==> v.lo >= 0)
  {
    ParseOfShowIntOrRange(v);
  }

  // ---- the validators -----------------------------------------------------------------

  predicate ForbiddenChar(c: char) {
    c == '\n' || c == '\r' || c == '[' || c == ']'
  }

  /** `validate_conf_string`: no line break and no section bracket. */
  predicate ConfStringOk(s: string) {
    forall i :: 0 <= i < |s| ==> !ForbiddenChar(s[i])
  }

  predicate JunkValueOk(n: int) {
    0 <= n <= U32_MAX
  }

  predicate SValueOk(n: int) {
    0 <= n <= 65535
  }

  predicate HValueOk(v: IntOrRange) {
    var (lo, hi) := match v case Single(n) => (n, n) case Range(l, h) => (l, h);
    5 <= lo <= hi <= 4294967295
  }

  /** `validate_range_string`: `N` or `N-M`, each a `u64`, `N <= M`. */
  predicate RangeStringOk(s: string) {
    && ConfStringOk(s)
    && var (lo, hi) := match SplitOnce(s, '-') case Some(parts) => parts case None => (s, s);
    && lo != [] && AllDigits(lo) && hi != [] && AllDigits(hi)
    && ParseU64(lo).Some? && ParseU64(hi).Some?
    && ParseU64(lo).value <= ParseU64(hi).value
  }

  /** `decode_hpk`: the guard, then base64 to exactly 32 bytes (all zero is legal). */
  predicate HpkOk(s: string) {
    && ConfStringOk(s)
    && Base64Std.Decode(s).Some?
    && |Base64Std.Decode(s).value| == 32
  }

  /** `hpk_is_active`: everything but a decodable 32-byte zero key. */
  predicate HpkIsActive(s: string) {
    match Base64Std.Decode(s)
    case Some(b) => !(|b| == 32 && forall i :: 0 <= i < |b| ==> b[i] == 0)
    case None => true
  }

  // ---- the I-tag scanner ------------------------------------------------------------

  predicate IsHexDigit(c: char) {
    IsDigit(c) || 'a' <= c <= 'f' || 'A' <= c <= 'F'
  }

  /** Argument of `<b ...>`: an optional `0x`, then a non-empty even run of hex digits. */
  predicate HexArgOk(arg: string) {
    HexDigitsOk(if "0x" <= arg then arg[2..] else arg)
  }

  predicate HexDigitsOk(digits: string) {
    digits != [] && |digits| % 2 == 0 && forall i :: 0 <= i < |digits| ==> IsHexDigit(digits[i])
  }

  /** The per-key argument grammar; an unknown or empty key is refused. */
  predicate TagOk(key: string, arg: Option<string>) {
    if key == "b" then arg.Some? && HexArgOk(arg.value)
    else if key == "r" || key == "rc" || key == "rd" || key == "dz" then
      arg.Some? && ParseU64(arg.value).Some? && ParseU64(arg.value).value <= 65535
    else key == "t" || key == "d" || key == "ds"
  }

  /** Key and argument of the text between the brackets: the first space is the cut. */
  function CutTag(tag: string): (string, Option<string>) {
    match SplitOnce(tag, ' ')
    case Some((key, arg)) => (key, Some(arg))
    case None => (tag, None)
  }

  predicate TagBodyOk(body: string) {
    var (key, arg) := CutTag(body);
    TagOk(key, arg)
  }

  /** One turn of the scan: no bracket left, a bracket that is never closed, or the text
      before, inside and after the next tag. */
  datatype Token = End | Open | Found(plain: string, body: string, tail: string)

  lemma Rejoin(plain: string, body: string, tail: string)
    ensures plain + "<" + (body + ">" + tail) == plain + "<" + body + ">" + tail
  {
  }

  function NextTag(rest: string): (t: Token)
    ensures t.End? <==> '<' !in rest
    ensures t.Found? ==> '<' !in t.plain && '>' !in t.body
    ensures t.Found? ==> rest == t.plain + "<" + t.body + ">" + t.tail
  {
    var start := Find(rest, '<');
    if start == |rest| then End
    else
      var after := rest[start + 1..];
      var t := CloseTag(rest[..start], after);
      assert rest == rest[..start] + "<" + after;
      if t.Found? then Rejoin(t.plain, t.body, t.tail); t else t
  }

  function CloseTag(plain: string, after: string): (t: Token)
    ensures !t.End?
    ensures t.Found? ==> t.plain == plain && after == t.body + ">" + t.tail && '>' !in t.body
  {
    var len := Find(after, '>');
    if len == |after| then Open
    else Found(plain, after[..len], after[len + 1..])
  }

  /** What the scanning loop decides from the unread text and the flag it carries. */
  predicate Scan(rest: string, sawTag: bool)
    decreases |rest|
  {
    match NextTag(rest)
    case End => sawTag
    case Open => false
    case Found(_, body, tail) => TagBodyOk(body) && Scan(tail, true)
  }

  predicate ITagOk(value: string) {
    ConfStringOk(value) && (value == "" || Scan(value, false))
  }

  /** The loop of `validate_i_tag`, updating `rest` and `saw_tag`. */
  method ValidateITag(value: string) returns (ok: bool)
    ensures ok <==> ITagGrammar(value)
  {
    ITagIsGrammar(value);
    var i := 0;
    while i < |value|
      invariant 0 <= i <= |value|
      invariant forall j :: 0 <= j < i ==> !ForbiddenChar(value[j])
    {
      if ForbiddenChar(value[i]) {
        return false;
      }
      i := i + 1;
    }
    if value == "" {
      return true;
    }
    ok := ScanLoop(value);
  }

  /** The loop over the tags, updating `rest` and `saw_tag`. */
  method ScanLoop(value: string) returns (ok: bool)
    ensures ok <==> Scan(value, false)
  {
    var rest, sawTag := value, false;
    while true
      invariant Scan(value, false) == Scan(rest, sawTag)
      decreases |rest|
    {
      match NextTag(rest)
      case End =>
        return sawTag;
      case Open =>
        return false;
      case Found(_, body, tail) =>
        if !TagBodyOk(body) {
          return false;
        }
        rest, sawTag := tail, true;
    }
  }

  // ---- the I-tag grammar --------------------------------------------------------------

  /** Free text, or one `<key>` / `<key arg>` tag. */
  datatype Piece = Plain(text: string) | Tag(key: string, arg: Option<string>)

  function Spell(p: Piece): string {
    match p
    case Plain(text) => text
    case Tag(key, None) => "<" + key + ">"
    case Tag(key, Some(arg)) => "<" + key + " " + arg + ">"
  }

  function SpellAll(ps: seq<Piece>): string {
    if ps == [] then "" else Spell(ps[0]) + SpellAll(ps[1..])
  }

  predicate PieceOk(p: Piece) {
    match p
    case Plain(text) => '<' !in text
    case Tag(key, arg) => TagOk(key, arg) && (arg.Some? ==> '>' !in arg.value)
  }

  ghost predicate IsSentence(ps: seq<Piece>, value: string) {
    && SpellAll(ps) == value
    && forall i :: 0 <= i < |ps| ==> PieceOk(ps[i])
  }

  predicate HasTag(ps: seq<Piece>) {
    exists i :: 0 <= i < |ps| && ps[i].Tag?
  }

  /** The declarative grammar: the empty value, or well-formed pieces with at least one tag,
      and no forbidden character anywhere. */
  ghost predicate ITagGrammar(value: string) {
    && ConfStringOk(value)
    && (value == "" || exists ps :: IsSentence(ps, value) && HasTag(ps))
  }

  lemma KnownKey(key: string, arg: Option<string>)
    requires TagOk(key, arg)
    ensures ' ' !in key && '>' !in key && key != ""
  {
  }

  lemma NextTagAt(plain: string, after: string)
    requires '<' !in plain
    ensures NextTag(plain + ['<'] + after) == CloseTag(plain, after)
  {
    var s := plain + ['<'] + after;
    FindUnique(plain, '<', after);
    assert s[..|plain|] == plain && s[|plain| + 1..] == after;
  }

  lemma NextTagPlain(text: string, rest: string)
    requires '<' !in text
    ensures NextTag(text + rest).End? <==> NextTag(rest).End?
    ensures NextTag(text + rest).Open? <==> NextTag(rest).Open?
    ensures NextTag(rest).Found? ==>
              && NextTag(text + rest).body == NextTag(rest).body
              && NextTag(text + rest).tail == NextTag(rest).tail
  {
    var start := Find(rest, '<');
    if start < |rest| {
      var before, after := rest[..start], rest[start + 1..];
      assert rest == before + ['<'] + after;
      NextTagAt(before, after);
      assert text + rest == (text + before) + ['<'] + after by {
        Assoc(text, before, ['<']);
        Assoc(text, before + ['<'], after);
      }
      NextTagAt(text + before, after);
    }
  }

  lemma NextTagHere(body: string, tail: string)
    requires '>' !in body
    ensures NextTag("<" + body + ">" + tail) == Found("", body, tail)
  {
    var after := body + ['>'] + tail;
    assert "<" + body + ">" + tail == "" + ['<'] + after;
    NextTagAt("", after);
    FindUnique(body, '>', tail);
    assert after[..|body|] == body && after[|body| + 1..] == tail;
  }

  lemma ScanPlain(text: string, rest: string, sawTag: bool)
    requires '<' !in text
    ensures Scan(text + rest, sawTag) == Scan(rest, sawTag)
  {
    NextTagPlain(text, rest);
  }

  lemma CutOfTag(key: string, arg: Option<string>) returns (body: string)
    requires PieceOk(Tag(key, arg))
    ensures Spell(Tag(key, arg)) == "<" + body + ">"
    ensures '>' !in body && CutTag(body) == (key, arg)
  {
    KnownKey(key, arg);
    hide TagOk;
    if arg.Some? {
      SplitOnceUnique(key, ' ', arg.value);
      body := key + [' '] + arg.value;
      Assoc("<", key, " ");
      Assoc("<", key + " ", arg.value);
    } else {
      body := key;
    }
  }

  lemma ScanTag(key: string, arg: Option<string>, rest: string, sawTag: bool)
    requires PieceOk(Tag(key, arg))
    ensures Scan(Spell(Tag(key, arg)) + rest, sawTag) == Scan(rest, true)
  {
    var body := CutOfTag(key, arg);
    NextTagHere(body, rest);
  }

  lemma {:induction false} SentenceScans(ps: seq<Piece>, sawTag: bool)
    requires forall i :: 0 <= i < |ps| ==> PieceOk(ps[i])
    ensures Scan(SpellAll(ps), sawTag) == (sawTag || HasTag(ps))
  {
    if ps != [] {
      var head, tail := ps[0], ps[1..];
      assert forall i :: 0 <= i < |tail| ==> tail[i] == ps[i + 1];
      assert HasTag(ps) <==> head.Tag? || HasTag(tail) by {
        if HasTag(tail) {
          var i :| 0 <= i < |tail| && tail[i].Tag?;
          assert ps[i + 1].Tag?;
        }
      }
      match head
      case Plain(text) =>
        ScanPlain(text, SpellAll(tail), sawTag);
        SentenceScans(tail, sawTag);
      case Tag(key, arg) =>
        ScanTag(key, arg, SpellAll(tail), sawTag);
        SentenceScans(tail, true);
    }
  }

  lemma {:induction false} ScanHasSentence(rest: string, sawTag: bool) returns (ps: seq<Piece>)
    requires Scan(rest, sawTag)
    ensures IsSentence(ps, rest)
    ensures sawTag || HasTag(ps)
    decreases |rest|
  {
    match NextTag(rest)
    case End =>
      ps := [Plain(rest)];
      assert SpellAll(ps) == Spell(ps[0]) + SpellAll(ps[1..]);
    case Found(plain, body, tail) =>
      var qs := ScanHasSentence(tail, true);
      var tag := TagOfBody(body);
      SentenceCons(tag, qs, tail);
      SentenceCons(Plain(plain), [tag] + qs, Spell(tag) + tail);
      ps := [Plain(plain)] + ([tag] + qs);
      Regroup(plain, body, tail);
      assert ps[1].Tag?;
  }

  lemma SentenceCons(p: Piece, ps: seq<Piece>, value: string)
    requires PieceOk(p) && IsSentence(ps, value)
    ensures IsSentence([p] + ps, Spell(p) + value)
  {
    assert ([p] + ps)[1..] == ps;
  }

  lemma Regroup(plain: string, body: string, tail: string)
    ensures plain + "<" + body + ">" + tail == plain + (("<" + body + ">") + tail)
  {
    Assoc(plain, "<", body);
    Assoc(plain, "<" + body, ">");
    Assoc(plain, "<" + body + ">", tail);
  }

  lemma TagOfBody(body: string) returns (tag: Piece)
    requires TagBodyOk(body) && '>' !in body
    ensures tag.Tag? && PieceOk(tag) && Spell(tag) == "<" + body + ">"
  {
    hide TagOk, SplitOnce;
    match SplitOnce(body, ' ') {
      case None => tag := Tag(body, None);
      case Some((key, arg)) =>
        tag := Tag(key, Some(arg));
        assert body == key + [' '] + arg;
        assert '>' !in arg;
        assert Spell(tag) == "<" + body + ">";
    }
  }

  /** The scanner accepts exactly the grammar. */
  lemma ITagIsGrammar(value: string)
    ensures ITagOk(value) <==> ITagGrammar(value)
  {
    if ITagOk(value) && value != "" {
      var ps := ScanHasSentence(value, false);
    }
    if ITagGrammar(value) && value != "" {
      var ps :| IsSentence(ps, value) && HasTag(ps);
      SentenceScans(ps, false);
    }
  }

  lemma {:induction false} SpellAllAppend(ps: seq<Piece>, qs: seq<Piece>)
    ensures SpellAll(ps + qs) == SpellAll(ps) + SpellAll(qs)
  {
    if ps == [] {
      assert ps + qs == qs;
    } else {
      assert (ps + qs)[1..] == ps[1..] + qs;
      SpellAllAppend(ps[1..], qs);
      Assoc(Spell(ps[0]), SpellAll(ps[1..]), SpellAll(qs));
    }
  }

  /** Two accepted values written one after the other are accepted. */
  lemma {:induction false} ITagConcat(a: string, b: string)
    requires ITagOk(a) && ITagOk(b)
    ensures ITagOk(a + b)
  {
    hide Scan;
    if a == "" {
      assert a + b == b;
    } else if b == "" {
      assert a + b == a;
    } else {
      var ps := ScanHasSentence(a, false);
      var qs := ScanHasSentence(b, false);
      SentenceConcat(ps, qs, a, b);
      ITagIsGrammar(a + b);
    }
  }

  lemma {:induction false} SentenceConcat(ps: seq<Piece>, qs: seq<Piece>, a: string, b: string)
    requires IsSentence(ps, a) && IsSentence(qs, b) && HasTag(ps)
    ensures IsSentence(ps + qs, a + b) && HasTag(ps + qs)
  {
    hide PieceOk;
    SpellAllAppend(ps, qs);
    var i :| 0 <= i < |ps| && ps[i].Tag?;
    assert (ps + qs)[i].Tag?;
  }
}
