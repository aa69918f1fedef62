/**
 The conf merge: resolve every key (epoch value, then conf line, then default), check the
 resolved set, and splice the outcome back into the text.
 */
module ConfMerge {
  import opened Common
  import opened Text
  import opened Params
  import opened FieldSpecs

  /** One merge: the conf as lines, the epoch payload (none on the startup top-up) and the
      defaults of this process. */
  datatype Job = Job(conf: seq<string>, params: Option<AwgParams>, defaults: ClientDefaults)

  /** What the splice does with a key. */
  datatype Action = Keep | Replace(line: string) | Insert(line: string)

  /** The outcome of resolving one key: its write decision, its effective value, and whether
      its epoch value was omitted. */
  datatype Row = Rejected | Row(act: Action, eff: Option<FieldValue>, drop: bool)

  datatype MergeError =
    | FieldRejected(field: Key)
    | ReservedSizes
    | HOverlap(field: Key, other: Key)
    | HpkNeedsPadding
    | JunkInverted
    | NoInterface

  datatype MergeResult = Ok(text: string, dropped: seq<Key>) | Err(error: MergeError)

  // ---- reading the conf ---------------------------------------------------------------

  /** The capture of the first line that belongs to `k`. */
  function ConfRaw(k: Key, ls: seq<string>): Option<string> {
    if ls == [] then None
    else if Matches(k, ls[0]) then Some(Capture(k, ls[0]))
    else ConfRaw(k, ls[1..])
  }

  function ConfValue(k: Key, ls: seq<string>): Option<FieldValue> {
    match ConfRaw(k, ls)
    case Some(raw) => ParseConf(k, raw)
    case None => None
  }

  // ---- resolving ----------------------------------------------------------------------

  /** What every row that is not rejected satisfies: a written line is the rendering of its
      valid effective value, and a kept key has the value the conf carries. */
  ghost predicate RowOk(k: Key, conf: seq<string>, r: Row) {
    r.Row? ==>
      && (r.act.Keep? ==> r.eff == ConfValue(k, conf))
      && (!r.act.Keep? ==> r.eff.Some? && Valid(k, r.eff.value) && r.act.line == Render(k, r.eff.value))
      && (r.act.Replace? ==> ConfRaw(k, conf).Some?)
      && (r.act.Insert? ==> ConfRaw(k, conf).None?)
  }

  /** One turn of the first pass. */
  function PassOne(k: Key, j: Job): (r: Row)
    ensures RowOk(k, j.conf, r)
    ensures r.Rejected? ==> ClassOf(k).MustMatch?
  {
    var raw := ConfRaw(k, j.conf);
    match EpochOf(k, j.params)
    case Some(v) =>
      if Valid(k, v) then
        Row(if raw.Some? then Replace(Render(k, v)) else Insert(Render(k, v)), Some(v), false)
      else if ClassOf(k).MustMatch? then Rejected
      else Row(Keep, ConfValue(k, j.conf), true)
    case None =>
      if raw.Some? then Row(Keep, ConfValue(k, j.conf), false)
      else
        match DefaultOf(k, j.defaults)
        case Some(v) => if Valid(k, v) then Row(Insert(Render(k, v)), Some(v), false) else Row(Keep, None, false)
        case None => Row(Keep, None, false)
  }

  function Eff(r: Row): Option<FieldValue> {
    if r.Row? then r.eff else None
  }

  function Pair(lo: Option<FieldValue>, hi: Option<FieldValue>): Option<(int, int)> {
    match (lo, hi)
    case (Some(Int(a)), Some(Int(b))) => Some((a, b))
    case _ => None
  }

  predicate Inverted(pair: Option<(int, int)>) {
    pair.Some? && pair.value.0 > pair.value.1
  }

  /** The first pass left Jmin above Jmax. */
  predicate Softens(j: Job) {
    Inverted(Pair(Eff(PassOne(Jmin, j)), Eff(PassOne(Jmax, j))))
  }

  /** Softening takes back the epoch-sourced members of an inverted pair. */
  predicate TakenBack(k: Key, j: Job) {
    (k == Jmin || k == Jmax) && Softens(j) && EpochOf(k, j.params).Some?
  }

  function FinalRow(k: Key, j: Job): (r: Row)
    ensures RowOk(k, j.conf, r)
    ensures r.Rejected? <==> PassOne(k, j).Rejected?
  {
    if TakenBack(k, j) then Row(Keep, ConfValue(k, j.conf), true) else PassOne(k, j)
  }

  function Act(k: Key, j: Job): Action {
    if FinalRow(k, j).Row? then FinalRow(k, j).act else Keep
  }

  function Resolved(k: Key, j: Job): Option<FieldValue> {
    Eff(FinalRow(k, j))
  }

  // ---- the cross-field checks -----------------------------------------------------------

  /** The quantities the checks read. */
  datatype Wire = Wire(s1: int, s2: int, s3: int, s4: int,
                       h: seq<Option<(int, int)>>,
                       hpkActive: bool,
                       junk: Option<(int, int)>)

  /** An absent or unreadable S value counts as 0. */
  function SNum(v: Option<FieldValue>): int {
    match v
    case Some(Int(n)) => n
    case _ => 0
  }

  function HBounds(v: Option<FieldValue>): Option<(int, int)> {
    match v
    case Some(Int(n)) => Some((n, n))
    case Some(Span(lo, hi)) => Some((lo, hi))
    case _ => None
  }

  predicate KeyActive(v: Option<FieldValue>) {
    v.Some? && v.value.Str? && HpkIsActive(v.value.s)
  }

  function WireOf(j: Job): (w: Wire)
    ensures |w.h| == 4
  {
    Wire(SNum(Resolved(S1, j)), SNum(Resolved(S2, j)), SNum(Resolved(S3, j)), SNum(Resolved(S4, j)),
         [HBounds(Resolved(H1, j)), HBounds(Resolved(H2, j)), HBounds(Resolved(H3, j)), HBounds(Resolved(H4, j))],
         KeyActive(Resolved(HeaderProtectionKey, j)),
         Pair(Resolved(Jmin, j), Resolved(Jmax, j)))
  }

  /** The same quantities read from a text. */
  function WireOfConf(ls: seq<string>): (w: Wire)
    ensures |w.h| == 4
  {
    Wire(SNum(ConfValue(S1, ls)), SNum(ConfValue(S2, ls)), SNum(ConfValue(S3, ls)), SNum(ConfValue(S4, ls)),
         [HBounds(ConfValue(H1, ls)), HBounds(ConfValue(H2, ls)),
          HBounds(ConfValue(H3, ls)), HBounds(ConfValue(H4, ls))],
         KeyActive(ConfValue(HeaderProtectionKey, ls)),
         Pair(ConfValue(Jmin, ls), ConfValue(Jmax, ls)))
  }

  /** `i64` addition as a release build performs it: modulo 2^64. */
  function Wrap64(n: int): int {
    (n + 0x8000_0000_0000_0000) % 0x1_0000_0000_0000_0000 - 0x8000_0000_0000_0000
  }

  predicate Overlap(a: Option<(int, int)>, b: Option<(int, int)>) {
    a.Some? && b.Some? && a.value.0 <= b.value.1 && b.value.0 <= a.value.1
  }

  const HKeys: seq<Key> := [H1, H2, H3, H4]

  /** The first overlapping pair `(i, k)` with `i < k`, searching from `(i, k)` on. */
  function FirstOverlap(h: seq<Option<(int, int)>>, i: nat, k: nat): (r: Option<(nat, nat)>)
    requires |h| == 4 && i < k <= 4
    ensures r.Some? ==> r.value.0 < r.value.1 < 4 && Overlap(h[r.value.0], h[r.value.1])
    decreases 4 - i, 4 - k
  {
    if k == 4 then
      if i + 2 < 4 then FirstOverlap(h, i + 1, i + 2) else None
    else if Overlap(h[i], h[k]) then Some((i, k))
    else FirstOverlap(h, i, k + 1)
  }

  function CheckMustMatch(w: Wire): Option<MergeError>
    requires |w.h| == 4
  {
    if Wrap64(w.s1 + 56) == w.s2 then Some(ReservedSizes)
    else
      match FirstOverlap(w.h, 0, 1)
      case Some((i, k)) => Some(HOverlap(HKeys[k], HKeys[i]))
      case None =>
        if w.hpkActive && (w.s1 < 12 || w.s2 < 12 || w.s3 < 12 || w.s4 < 12) then Some(HpkNeedsPadding)
        else None
  }

  /** The junk pair plays no part in them. */
  lemma JunkUnchecked(w: Wire, junk: Option<(int, int)>)
    requires |w.h| == 4
    ensures CheckMustMatch(w.(junk := junk)) == CheckMustMatch(w)
  {
  }

  function Check(w: Wire): Option<MergeError>
    requires |w.h| == 4
  {
    match CheckMustMatch(w)
    case Some(e) => Some(e)
    case None => if Inverted(w.junk) then Some(JunkInverted) else None
  }

  // ---- the splice -----------------------------------------------------------------------

  function Rewrite(line: string, j: Job): string {
    match Owner(line)
    case None => line
    case Some(k) =>
      match Act(k, j)
      case Replace(l) => l
      case _ => line
  }

  function Rewritten(ls: seq<string>, j: Job): (r: seq<string>)
    ensures |r| == |ls|
    ensures forall i :: 0 <= i < |ls| ==> r[i] == Rewrite(ls[i], j)
  {
    if ls == [] then [] else [Rewrite(ls[0], j)] + Rewritten(ls[1..], j)
  }

  /** The lines to insert, in the order of `ks`. */
  function InsertLines(ks: seq<Key>, j: Job): seq<string> {
    if ks == [] then []
    else (match Act(ks[0], j) case Insert(l) => [l] case _ => []) + InsertLines(ks[1..], j)
  }

  /** The first `[Interface]` line, or `|ls|`. */
  function HeaderIndex(ls: seq<string>): (i: nat)
    ensures i <= |ls|
    ensures i < |ls| ==> IsHeader(ls[i])
    ensures forall m :: 0 <= m < i ==> !IsHeader(ls[m])
  {
    if ls == [] || IsHeader(ls[0]) then 0 else 1 + HeaderIndex(ls[1..])
  }

  /** One block after the line `h`. */
  function InsertAfter(ls: seq<string>, h: nat, block: seq<string>): seq<string>
    requires h < |ls|
  {
    ls[..h + 1] + block + ls[h + 1..]
  }

  predicate CanInsert(j: Job) {
    InsertLines(Table, j) == [] || HeaderIndex(j.conf) < |j.conf|
  }

  function Spliced(j: Job): seq<string>
    requires CanInsert(j)
  {
    var block := InsertLines(Table, j);
    if block == [] then Rewritten(j.conf, j)
    else InsertAfter(Rewritten(j.conf, j), HeaderIndex(j.conf), block)
  }

  // ---- the merge ------------------------------------------------------------------------

  function FirstRejected(ks: seq<Key>, j: Job): (r: Option<Key>)
    ensures r.Some? ==> r.value in ks && PassOne(r.value, j).Rejected?
    ensures r.None? ==> forall k :: k in ks ==> PassOne(k, j).Row?
  {
    if ks == [] then None
    else if PassOne(ks[0], j).Rejected? then Some(ks[0])
    else FirstRejected(ks[1..], j)
  }

  /** The fields omitted by the first pass, in table order. */
  function Omitted(ks: seq<Key>, j: Job): seq<Key> {
    if ks == [] then []
    else (if PassOne(ks[0], j).Row? && PassOne(ks[0], j).drop then [ks[0]] else []) + Omitted(ks[1..], j)
  }

  /** The dropped list: the omitted fields, then the members softening took back. */
  function Dropped(j: Job): seq<Key> {
    Omitted(Table, j)
    + (if TakenBack(Jmin, j) then [Jmin] else [])
    + (if TakenBack(Jmax, j) then [Jmax] else [])
  }

  function MergeJob(j: Job): MergeResult
    requires |j.conf| >= 1
  {
    match FirstRejected(Table, j)
    case Some(k) => Err(FieldRejected(k))
    case None =>
      match Check(WireOf(j))
      case Some(e) => Err(e)
      case None => if CanInsert(j) then SplicedNonEmpty(j); Ok(Join(Spliced(j), '\n'), Dropped(j)) else Err(NoInterface)
  }

  lemma SplicedNonEmpty(j: Job)
    requires CanInsert(j) && |j.conf| >= 1
    ensures |Spliced(j)| >= 1
  {
  }

  function JobOf(conf: string, params: Option<AwgParams>, defaults: ClientDefaults): Job {
    Job(Split(conf, '\n'), params, defaults)
  }

  /** `merge_obfuscation_params_reporting` as a function of its inputs. */
  function Merge(conf: string, params: Option<AwgParams>, defaults: ClientDefaults): MergeResult {
    MergeJob(JobOf(conf, params, defaults))
  }
}
