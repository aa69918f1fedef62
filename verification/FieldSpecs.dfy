/**
 The sourcing table of the conf merge: one key per row, with its spelling, merge class,
 grammar, epoch member and default source, and the line pattern derived from the spelling.
 */
module FieldSpecs {
  import opened Common
  import opened Text
  import opened Params

  datatype Key =
    | Jc | Jmin | Jmax
    | S1 | S2 | S3 | S4
    | H1 | H2 | H3 | H4
    | I1 | I2 | I3 | I4 | I5
    | HeaderProtectionKey
    | ContentPaddingAddition
    | RekeyAfterTime | RekeyTimeout | RejectAfterTime | KeepaliveTimeout | MaxHandshakeAttempts
    | RandomTrailers
    | DisableCookies

  /** What a failed validation costs: the whole merge, or this field only. */
  datatype Class = MustMatch | ClientSide

  datatype Kind = SInt | HRange | RangeString | TagLiteral | HeaderKey | OnOff | JunkCount

  /** A resolved value for one key. */
  datatype FieldValue = Int(n: int) | Span(lo: int, hi: int) | Str(s: string) | Flag(on: bool)

  /** The client-side defaults drawn once per process start. */
  datatype ClientDefaults = ClientDefaults(
    i1: string, contentPaddingAddition: string, jc: int, jmin: int, jmax: int)

  /** The rows in table order, which is the order of inserted lines. */
  const Table: seq<Key> :=
    [ Jc, Jmin, Jmax, S1, S2, S3, S4, H1, H2, H3, H4, I1, I2, I3, I4, I5,
      HeaderProtectionKey, ContentPaddingAddition, RekeyAfterTime, RekeyTimeout,
      RejectAfterTime, KeepaliveTimeout, MaxHandshakeAttempts, RandomTrailers, DisableCookies ]

  function Name(k: Key): string {
    match k
    case Jc => "Jc" case Jmin => "Jmin" case Jmax => "Jmax"
    case S1 => "S1" case S2 => "S2" case S3 => "S3" case S4 => "S4"
    case H1 => "H1" case H2 => "H2" case H3 => "H3" case H4 => "H4"
    case I1 => "I1" case I2 => "I2" case I3 => "I3" case I4 => "I4" case I5 => "I5"
    case HeaderProtectionKey => "HeaderProtectionKey"
    case ContentPaddingAddition => "ContentPaddingAddition"
    case RekeyAfterTime => "RekeyAfterTime"
    case RekeyTimeout => "RekeyTimeout"
    case RejectAfterTime => "RejectAfterTime"
    case KeepaliveTimeout => "KeepaliveTimeout"
    case MaxHandshakeAttempts => "MaxHandshakeAttempts"
    case RandomTrailers => "RandomTrailers"
    case DisableCookies => "DisableCookies"
  }

  function KindOf(k: Key): Kind {
    match k
    case Jc | Jmin | Jmax => JunkCount
    case S1 | S2 | S3 | S4 => SInt
    case H1 | H2 | H3 | H4 => HRange
    case I1 | I2 | I3 | I4 | I5 => TagLiteral
    case HeaderProtectionKey => HeaderKey
    case ContentPaddingAddition | RekeyAfterTime | RekeyTimeout
       | RejectAfterTime | KeepaliveTimeout | MaxHandshakeAttempts => RangeString
    case RandomTrailers | DisableCookies => OnOff
  }

  function ClassOf(k: Key): Class {
    if KindOf(k).SInt? || KindOf(k).HRange? || k.HeaderProtectionKey? || k.RandomTrailers?
    then MustMatch else ClientSide
  }

  /** `epoch_str`: an empty string counts as absent. */
  function NonEmpty(s: Option<string>): Option<FieldValue> {
    if s.Some? && s.value != "" then Some(Str(s.value)) else None
  }

  function OptInt(n: Option<int>): Option<FieldValue> {
    if n.Some? then Some(Int(n.value)) else None
  }

  function OptFlag(b: Option<bool>): Option<FieldValue> {
    if b.Some? then Some(Flag(b.value)) else None
  }

  function FromIntOrRange(v: IntOrRange): FieldValue {
    match v
    case Single(n) => Int(n)
    case Range(lo, hi) => Span(lo, hi)
  }

  function EpochMember(k: Key, p: AwgParams): Option<FieldValue> {
    match k
    case Jc => OptInt(p.jc)
    case Jmin => OptInt(p.jmin)
    case Jmax => OptInt(p.jmax)
    case S1 => Some(Int(p.s1))
    case S2 => Some(Int(p.s2))
    case S3 => OptInt(p.s3)
    case S4 => Some(Int(p.s4))
    case H1 => Some(FromIntOrRange(p.h1))
    case H2 => Some(FromIntOrRange(p.h2))
    case H3 => Some(FromIntOrRange(p.h3))
    case H4 => Some(FromIntOrRange(p.h4))
    case I1 => NonEmpty(p.i1)
    case I2 => NonEmpty(p.i2)
    case I3 => NonEmpty(p.i3)
    case I4 => NonEmpty(p.i4)
    case I5 => NonEmpty(p.i5)
    case HeaderProtectionKey => NonEmpty(p.headerProtectionKey)
    case ContentPaddingAddition => NonEmpty(p.contentPaddingAddition)
    case RekeyAfterTime => NonEmpty(p.rekeyAfterTime)
    case RekeyTimeout => NonEmpty(p.rekeyTimeout)
    case RejectAfterTime => NonEmpty(p.rejectAfterTime)
    case KeepaliveTimeout => NonEmpty(p.keepaliveTimeout)
    case MaxHandshakeAttempts => NonEmpty(p.maxHandshakeAttempts)
    case RandomTrailers => OptFlag(p.randomTrailers)
    case DisableCookies => OptFlag(p.disableCookies)
  }

  /** The epoch's value for `k`; nothing on the params-less top-up. */
  function EpochOf(k: Key, p: Option<AwgParams>): Option<FieldValue> {
    if p.Some? then EpochMember(k, p.value) else None
  }

  function DefaultOf(k: Key, d: ClientDefaults): (r: Option<FieldValue>)
    ensures r.Some? ==> ClassOf(k).ClientSide?
  {
    match k
    case Jc => Some(Int(d.jc))
    case Jmin => Some(Int(d.jmin))
    case Jmax => Some(Int(d.jmax))
    case I1 => Some(Str(d.i1))
    case ContentPaddingAddition => Some(Str(d.contentPaddingAddition))
    case _ => None
  }

  // ---- values and their spelling ------------------------------------------------------

  /** `FieldSpec::validate`: the row's grammar over a value about to be written. */
  predicate Valid(k: Key, v: FieldValue) {
    match (KindOf(k), v)
    case (SInt, Int(n)) => SValueOk(n)
    case (HRange, Int(n)) => HValueOk(Single(n))
    case (HRange, Span(lo, hi)) => HValueOk(Range(lo, hi))
    case (RangeString, Str(s)) => RangeStringOk(s)
    case (TagLiteral, Str(s)) => ITagOk(s)
    case (HeaderKey, Str(s)) => HpkOk(s)
    case (OnOff, Flag(_)) => true
    case (JunkCount, Int(n)) => JunkValueOk(n)
    case _ => false
  }

  function ShowValue(v: FieldValue): string {
    match v
    case Int(n) => Show(n)
    case Span(lo, hi) => if lo == hi then Show(lo) else Show(lo) + "-" + Show(hi)
    case Str(s) => s
    case Flag(b) => if b then "on" else "off"
  }

  /** `FieldSpec::render`: the conf line `Key = value`. */
  function Render(k: Key, v: FieldValue): string {
    Name(k) + " = " + ShowValue(v)
  }

  /** `FieldSpec::parse_conf_value`: lenient, unreadable counts as absent. */
  function ParseConf(k: Key, raw: string): Option<FieldValue> {
    var t := Trim(raw);
    if t == "" then None
    else
      match KindOf(k)
      case SInt | JunkCount => OptInt(ParseI64(t))
      case HRange => (match ParseIntOrRange(t) case Some(v) => Some(FromIntOrRange(v)) case None => None)
      case OnOff => if t == "on" then Some(Flag(true)) else if t == "off" then Some(Flag(false)) else None
      case TagLiteral | HeaderKey | RangeString => Some(Str(t))
  }

  /** The form in which a written value is read back: a tag is trimmed (and absent when
      nothing is left), a one-element range is a single number. */
  function Norm(v: FieldValue): Option<FieldValue> {
    match v
    case Str(s) => if Trim(s) == "" then None else Some(Str(Trim(s)))
    case Span(lo, hi) => if lo == hi then Some(Int(lo)) else Some(v)
    case _ => Some(v)
  }

  // ---- the line pattern ---------------------------------------------------------------

  /** The line is `Key[ \t]*=...`. */
  predicate Matches(k: Key, line: string) {
    && Name(k) <= line
    && var rest := SkipBlanks(line[|Name(k)|..]);
    && rest != [] && rest[0] == '='
  }

  /** The capture group of the line pattern: what follows `=` and any blanks. */
  function Capture(k: Key, line: string): string
    requires Matches(k, line)
  {
    SkipBlanks(SkipBlanks(line[|Name(k)|..])[1..])
  }

  predicate IsHeader(line: string) {
    "[Interface]" <= line
  }

  predicate IsNameChar(c: char) {
    'A' <= c <= 'Z' || 'a' <= c <= 'z' || '0' <= c <= '9'
  }

  predicate CleanName(k: Key) {
    Name(k) != [] && forall i :: 0 <= i < |Name(k)| ==> IsNameChar(Name(k)[i])
  }

  /** Spellings are letters and digits only. */
  lemma NameClean(k: Key)
    ensures Name(k) != [] && forall i :: 0 <= i < |Name(k)| ==> IsNameChar(Name(k)[i])
  {
    match k
    case HeaderProtectionKey => NameCleanKey();
    case ContentPaddingAddition => NameCleanPadding();
    case MaxHandshakeAttempts => NameCleanAttempts();
    case RekeyAfterTime | RekeyTimeout | RejectAfterTime | KeepaliveTimeout => NameCleanTime(k);
    case RandomTrailers | DisableCookies => NameCleanFlag(k);
    case Jc | Jmin | Jmax => NameCleanJunk(k);
    case S1 | S2 | S3 | S4 => NameCleanSize(k);
    case H1 | H2 | H3 | H4 => NameCleanHeader(k);
    case I1 | I2 | I3 | I4 | I5 => NameCleanTag(k);
  }

  lemma NameCleanKey()
    ensures CleanName(HeaderProtectionKey)
  {
  }

  lemma NameCleanPadding()
    ensures CleanName(ContentPaddingAddition)
  {
  }

  lemma NameCleanAttempts()
    ensures CleanName(MaxHandshakeAttempts)
  {
  }

  lemma NameCleanJunk(k: Key)
    requires k.Jc? || k.Jmin? || k.Jmax?
    ensures CleanName(k)
  {
  }

  lemma NameCleanSize(k: Key)
    requires k.S1? || k.S2? || k.S3? || k.S4?
    ensures CleanName(k)
  {
  }

  lemma NameCleanHeader(k: Key)
    requires k.H1? || k.H2? || k.H3? || k.H4?
    ensures CleanName(k)
  {
  }

  lemma NameCleanTag(k: Key)
    requires k.I1? || k.I2? || k.I3? || k.I4? || k.I5?
    ensures CleanName(k)
  {
  }

  lemma NameCleanTime(k: Key)
    requires k.RekeyAfterTime? || k.RekeyTimeout? || k.RejectAfterTime? || k.KeepaliveTimeout?
    ensures CleanName(k)
  {
  }

  lemma NameCleanFlag(k: Key)
    requires k.RandomTrailers? || k.DisableCookies?
    ensures CleanName(k)
  {
  }

  lemma NameInjective(a: Key, b: Key)
    requires Name(a) == Name(b)
    ensures a == b
  {
  }

  /** A line belongs to at most one key. */
  lemma MatchUnique(a: Key, b: Key, line: string)
    requires Matches(a, line) && Matches(b, line)
    ensures a == b
  {
    if |Name(a)| == |Name(b)| {
      NameInjective(a, b);
    } else if |Name(a)| < |Name(b)| {
      NotLonger(a, b, line);
    } else {
      NotLonger(b, a, line);
    }
  }

  lemma AfterName(k: Key, line: string)
    requires Matches(k, line)
    ensures |Name(k)| < |line| && !IsNameChar(line[|Name(k)|])
  {
    var c := line[|Name(k)|..][0];
    assert IsBlank(c) || c == '=';
  }

  lemma NotLonger(a: Key, b: Key, line: string)
    requires Matches(a, line) && Matches(b, line)
    ensures |Name(b)| <= |Name(a)|
  {
    AfterName(a, line);
    NameClean(b);
  }

  function FirstMatch(line: string, ks: seq<Key>): (r: Option<Key>)
    ensures r.Some? ==> r.value in ks && Matches(r.value, line)
    ensures r.None? ==> forall k :: k in ks ==> !Matches(k, line)
  {
    if ks == [] then None
    else if Matches(ks[0], line) then Some(ks[0])
    else FirstMatch(line, ks[1..])
  }

  lemma TableComplete(k: Key)
    ensures k in Table
  {
    match k
    case Jc => assert Table[0] == k; case Jmin => assert Table[1] == k; case Jmax => assert Table[2] == k;
    case S1 => assert Table[3] == k; case S2 => assert Table[4] == k; case S3 => assert Table[5] == k;
    case S4 => assert Table[6] == k; case H1 => assert Table[7] == k; case H2 => assert Table[8] == k;
    case H3 => assert Table[9] == k; case H4 => assert Table[10] == k; case I1 => assert Table[11] == k;
    case I2 => assert Table[12] == k; case I3 => assert Table[13] == k; case I4 => assert Table[14] == k;
    case I5 => assert Table[15] == k; case HeaderProtectionKey => assert Table[16] == k;
    case ContentPaddingAddition => assert Table[17] == k; case RekeyAfterTime => assert Table[18] == k;
    case RekeyTimeout => assert Table[19] == k; case RejectAfterTime => assert Table[20] == k;
    case KeepaliveTimeout => assert Table[21] == k; case MaxHandshakeAttempts => assert Table[22] == k;
    case RandomTrailers => assert Table[23] == k; case DisableCookies => assert Table[24] == k;
  }

  /** The key a line belongs to, if any: the one whose pattern matches. */
  function Owner(line: string): (r: Option<Key>)
    ensures forall k {:trigger Matches(k, line)} :: r == Some(k) <==> Matches(k, line)
  {
    var r := FirstMatch(line, Table);
    assert forall k :: r == Some(k) <==> Matches(k, line) by {
      forall k | Matches(k, line) ensures r == Some(k) {
        TableComplete(k);
        MatchUnique(k, r.value, line);
      }
    }
    r
  }

  /** A section header belongs to no key. */
  lemma HeaderUnowned(line: string)
    requires line != [] && line[0] == '['
    ensures Owner(line).None?
  {
    forall k: Key ensures !Matches(k, line) {
      NameClean(k);
    }
  }

  lemma RenderSplit(k: Key, s: string)
    ensures Name(k) <= Name(k) + " = " + s
    ensures (Name(k) + " = " + s)[|Name(k)|..] == [' '] + (['='] + ([' '] + s))
  {
  }

  lemma SkipOneBlank(s: string)
    ensures SkipBlanks([' '] + s) == SkipBlanks(s)
  {
    assert ([' '] + s)[1..] == s;
  }

  /** A rendered line is owned by its key, and its capture is the value's spelling. */
  lemma RenderMatches(k: Key, v: FieldValue)
    ensures Owner(Render(k, v)) == Some(k)
    ensures Capture(k, Render(k, v)) == SkipBlanks(ShowValue(v))
  {
    var s := ShowValue(v);
    RenderSplit(k, s);
    SkipOneBlank(['='] + ([' '] + s));
    assert (['='] + ([' '] + s))[1..] == [' '] + s;
    SkipOneBlank(s);
    assert Matches(k, Render(k, v));
  }

  lemma ShowTrimmed(v: FieldValue)
    requires !v.Str?
    requires v.Int? ==> v.n >= 0
    requires v.Span? ==> v.lo >= 0 && v.hi >= 0
    ensures ShowValue(v) != "" && Trim(ShowValue(v)) == ShowValue(v)
  {
    TrimFixed(ShowValue(v));
  }

  /** Printer and parser: what `render` writes, the line pattern and `parse_conf_value` read
      back as the normal form of the value, and no other row claims the line. */
  lemma RoundTrip(k: Key, v: FieldValue)
    requires Valid(k, v)
    ensures forall j :: Matches(j, Render(k, v)) <==> j == k
    ensures ParseConf(k, Capture(k, Render(k, v))) == Norm(v)
  {
    hide HpkOk, ITagOk, RangeStringOk, Name, TrimLeft, TrimRight, SkipBlanks, Matches, Capture, Render, Owner, Valid,
         ParseConf, ShowValue, Norm;
    RenderMatches(k, v);
    TrimAfterBlanks(ShowValue(v));
    ParseTrimmed(k, SkipBlanks(ShowValue(v)), ShowValue(v));
    ParseShown(k, v);
  }

  lemma ParseTrimmed(k: Key, a: string, b: string)
    requires Trim(a) == Trim(b)
    ensures ParseConf(k, a) == ParseConf(k, b)
  {
    hide Trim, ParseI64, ParseIntOrRange;
  }

  /** Parsing the spelling of a valid value gives its normal form. */
  lemma ParseShown(k: Key, v: FieldValue)
    requires Valid(k, v)
    ensures ParseConf(k, ShowValue(v)) == Norm(v)
  {
    hide HpkOk, ITagOk, RangeStringOk, TrimLeft, TrimRight, ParseI64, ParseIntOrRange, Show;
    match v
    case Str(_) =>
    case Int(n) =>
      ShowTrimmed(v);
      ParseOfShow(n);
      ParseOfShowIntOrRange(Single(n));
    case Span(lo, hi) =>
      ShowTrimmed(v);
      ParseOfShowIntOrRange(if lo == hi then Single(lo) else Range(lo, hi));
    case Flag(b) =>
      ShowTrimmed(v);
  }

  lemma Base64NoBreak(s: string)
    requires HpkOk(s)
    ensures Trim(s) == s && s != ""
  {
    if s != "" {
      assert s[0] in s && s[|s| - 1] in s;
      TrimFixed(s);
    }
  }

  /** A written value never breaks the line. */
  lemma RenderOneLine(k: Key, v: FieldValue)
    requires Valid(k, v)
    ensures '\n' !in Render(k, v)
  {
    hide Name, Valid, ShowValue;
    NameClean(k);
    ShownOneLine(k, v);
  }

  lemma ShownOneLine(k: Key, v: FieldValue)
    requires Valid(k, v)
    ensures '\n' !in ShowValue(v)
  {
    hide Show;
    match v
    case Int(n) => OneLineNumber(n);
    case Span(lo, hi) =>
      OneLineNumber(lo);
      OneLineNumber(hi);
    case Flag(_) =>
    case Str(s) => OneLineString(k, s);
  }

  lemma OneLineNumber(n: int)
    requires n >= 0
    ensures '\n' !in Show(n)
  {
  }

  lemma OneLineString(k: Key, s: string)
    requires Valid(k, Str(s))
    ensures '\n' !in s
  {
    hide Scan, SplitOnce, ParseU64, HpkIsActive;
    if KindOf(k).HeaderKey? {
      Base64OneLine(s);
    } else {
      assert ConfStringOk(s);
    }
  }

  lemma Base64OneLine(s: string)
    requires HpkOk(s)
    ensures '\n' !in s
  {
    assert forall c :: c in s ==> Base64Std.IsGroupChar(c);
  }
}
