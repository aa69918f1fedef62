/**
 What a successful merge guarantees about the text it returns.
 */
module MergeTheorems {
  import opened Common
  import opened Text
  import opened Params
  import opened FieldSpecs
  import opened ConfMerge
  import opened SpliceProofs

  // ---- from lines to text -------------------------------------------------------------

  ghost predicate OneLiners(ls: seq<string>) {
    forall i :: 0 <= i < |ls| ==> '\n' !in ls[i]
  }

  lemma {:induction false} WrittenOneLine(k: Key, j: Job)
    requires !Act(k, j).Keep?
    ensures '\n' !in Act(k, j).line
  {
    WrittenOwner(k, j);
    RenderOneLine(k, Resolved(k, j).value);
  }

  lemma {:induction false} RewriteOneLine(line: string, j: Job)
    requires '\n' !in line
    ensures '\n' !in Rewrite(line, j)
  {
    var o := Owner(line);
    if o.Some? && Act(o.value, j).Replace? {
      WrittenOneLine(o.value, j);
    }
  }

  lemma {:induction false} InsertOneLine(ks: seq<Key>, j: Job)
    ensures OneLiners(InsertLines(ks, j))
  {
    if ks != [] {
      InsertOneLine(ks[1..], j);
      if Act(ks[0], j).Insert? {
        WrittenOneLine(ks[0], j);
      }
    }
  }

  lemma {:induction false} SplicedOneLine(j: Job)
    requires CanInsert(j) && OneLiners(j.conf)
    ensures OneLiners(Spliced(j))
  {
    var r := Rewritten(j.conf, j);
    forall i | 0 <= i < |r| ensures '\n' !in r[i] {
      RewriteOneLine(j.conf[i], j);
    }
    InsertOneLine(Table, j);
  }

  /** The lines of the returned text are the spliced lines: nothing a merge writes breaks a
      line or joins two. */
  lemma {:induction false} MergedLines(conf: string, p: Option<AwgParams>, d: ClientDefaults)
    requires Merge(conf, p, d).Ok?
    ensures CanInsert(JobOf(conf, p, d))
    ensures Split(Merge(conf, p, d).text, '\n') == Spliced(JobOf(conf, p, d))
  {
    var j := JobOf(conf, p, d);
    SplicedOneLine(j);
    SplicedNonEmpty(j);
    SplitOfJoin(Spliced(j), '\n');
  }

  // ---- re-parse agreement ---------------------------------------------------------------

  /** Reading a key back from the spliced lines gives its resolved value, in normal form if
      the merge wrote it. */
  lemma {:induction false} ReadBack(k: Key, j: Job)
    requires CanInsert(j) && PassOne(k, j).Row?
    ensures ConfValue(k, Spliced(j)) ==
            if Act(k, j).Keep? then Resolved(k, j) else Norm(Resolved(k, j).value)
  {
    hide Valid, Norm, Spliced, Select, ConfRaw, CanInsert, Render, Capture, Matches, ParseConf;
    SelectSpliced(j, Some(k));
    RawIsFirst(k, j.conf);
    match Act(k, j)
    case Keep =>
      SameLinesSameValue(k, Spliced(j), j.conf);
      KeptValue(k, j);
    case _ =>
      WrittenOwner(k, j);
      RawIsFirst(k, Spliced(j));
      assert Select(Spliced(j), Some(k))[0] == Act(k, j).line;
      RoundTrip(k, Resolved(k, j).value);
  }

  lemma {:induction false} KeptValue(k: Key, j: Job)
    requires Act(k, j).Keep? && FinalRow(k, j).Row?
    ensures Resolved(k, j) == ConfValue(k, j.conf)
  {
  }

  /** Two readings of a key that the checks cannot tell apart: equal, except that an H value
      may be a number or a one-element range, and that no check reads the free strings. */
  ghost predicate Alike(k: Key, a: Option<FieldValue>, b: Option<FieldValue>) {
    match KindOf(k)
    case TagLiteral | RangeString => true
    case HRange => HBounds(a) == HBounds(b)
    case _ => a == b
  }

  lemma HpkNorm(s: string)
    requires HpkOk(s)
    ensures Norm(Str(s)) == Some(Str(s))
  {
    Base64NoBreak(s);
  }

  lemma NormAlike(k: Key, v: FieldValue)
    requires Valid(k, v)
    ensures Alike(k, Norm(v), Some(v))
  {
    hide HpkOk, ITagOk, RangeStringOk, HpkIsActive, Trim;
    if k.HeaderProtectionKey? {
      HpkNorm(v.s);
    }
  }

  ghost predicate AllResolve(j: Job) {
    forall k :: PassOne(k, j).Row?
  }

  lemma {:induction false} OkResolves(j: Job)
    requires FirstRejected(Table, j).None?
    ensures AllResolve(j)
  {
    forall k ensures PassOne(k, j).Row? {
      TableComplete(k);
    }
  }

  /** Re-parse agreement: the quantities the checks ran on are those the written lines carry. */
  lemma {:induction false} WireAgrees(j: Job)
    requires CanInsert(j) && AllResolve(j)
    ensures WireOfConf(Spliced(j)) == WireOf(j)
  {
    var out := Spliced(j);
    forall k ensures Alike(k, ConfValue(k, out), Resolved(k, j)) {
      ReadBackAlike(k, j);
    }
    SameWire(j, out);
  }

  lemma {:induction false} ReadBackAlike(k: Key, j: Job)
    requires CanInsert(j) && PassOne(k, j).Row?
    ensures Alike(k, ConfValue(k, Spliced(j)), Resolved(k, j))
  {
    hide Valid, Norm, Spliced, FinalRow, ConfValue, KindOf, CanInsert;
    ReadBack(k, j);
    if !Act(k, j).Keep? {
      WrittenOwner(k, j);
      NormAlike(k, Resolved(k, j).value);
    }
  }

  lemma {:induction false} SameWire(j: Job, ls: seq<string>)
    requires forall k :: Alike(k, ConfValue(k, ls), Resolved(k, j))
    ensures WireOfConf(ls) == WireOf(j)
  {
    hide ConfValue, Resolved;
    forall k ensures Alike(k, ConfValue(k, ls), Resolved(k, j)) {
    }
    assert forall k :: KindOf(k).SInt? ==> ConfValue(k, ls) == Resolved(k, j);
    assert forall k :: KindOf(k).HRange? ==> HBounds(ConfValue(k, ls)) == HBounds(Resolved(k, j));
  }

  ghost predicate Within(r: Option<(int, int)>, n: int) {
    r.Some? && r.value.0 <= n <= r.value.1
  }

  /** The preconditions of the wire: the reserved size pair is avoided, no message type falls
      in two H ranges, an active key has padding everywhere, and the junk sizes are ordered. */
  ghost predicate SafeWire(w: Wire)
    requires |w.h| == 4
  {
    && w.s1 + 56 != w.s2
    && (forall a, b, n :: 0 <= a < b < 4 ==> !(Within(w.h[a], n) && Within(w.h[b], n)))
    && (w.hpkActive ==> w.s1 >= 12 && w.s2 >= 12 && w.s3 >= 12 && w.s4 >= 12)
    && (w.junk.Some? ==> w.junk.value.0 <= w.junk.value.1)
  }

  /** The preconditions stated of a text alone: what a reader of the conf finds. */
  ghost predicate SafeConf(conf: string) {
    SafeWire(WireOfConf(Split(conf, '\n')))
  }

  lemma {:induction false} WireRange(ls: seq<string>)
    ensures var w := WireOfConf(ls); I64_MIN <= w.s1 <= I64_MAX && I64_MIN <= w.s2 <= I64_MAX
  {
    hide ConfValue;
    ConfSRange(S1, ls);
    ConfSRange(S2, ls);
  }

  lemma {:induction false} CheckedIsSafe(w: Wire)
    requires |w.h| == 4
    requires Check(w).None?
    requires I64_MIN <= w.s1 <= I64_MAX && I64_MIN <= w.s2 <= I64_MAX
    ensures SafeWire(w)
  {
    forall a: nat, b: nat, n | 0 <= a < b < 4 ensures !(Within(w.h[a], n) && Within(w.h[b], n)) {
      OverlapIsFirst(w.h, 0, 1, a, b);
    }
  }

  lemma {:induction false} ConfSRange(k: Key, ls: seq<string>)
    requires KindOf(k).SInt?
    ensures I64_MIN <= SNum(ConfValue(k, ls)) <= I64_MAX
  {
  }

  /** No pair from `(i, k)` on overlaps before the one that is found, nor any if none is. */
  lemma {:induction false} OverlapIsFirst(h: seq<Option<(int, int)>>, i: nat, k: nat, a: nat, b: nat)
    requires |h| == 4 && i < k <= 4
    requires a < b < 4 && (a > i || (a == i && b >= k))
    ensures var r := FirstOverlap(h, i, k);
            r.None? || a < r.value.0 || (a == r.value.0 && b < r.value.1) ==> !Overlap(h[a], h[b])
    decreases 4 - i, 4 - k
  {
    if k == 4 {
      OverlapIsFirst(h, i + 1, i + 2, a, b);
    } else if !(a == i && b == k) && !Overlap(h[i], h[k]) {
      OverlapIsFirst(h, i, k + 1, a, b);
    }
  }

  lemma {:induction false} SplicedIsSafe(j: Job)
    requires CanInsert(j) && AllResolve(j) && Check(WireOf(j)).None?
    ensures SafeWire(WireOfConf(Spliced(j)))
  {
    hide Check, SafeWire, CanInsert, Spliced, WireOf, WireOfConf;
    WireAgrees(j);
    WireRange(Spliced(j));
    CheckedIsSafe(WireOfConf(Spliced(j)));
  }

  /** Every conf a merge returns satisfies the wire preconditions as written. */
  lemma {:induction false} WrittenConfIsSafe(conf: string, p: Option<AwgParams>, d: ClientDefaults)
    requires Merge(conf, p, d).Ok?
    ensures SafeConf(Merge(conf, p, d).text)
  {
    hide Check, SafeWire, Spliced, WireOf, WireOfConf, Dropped, InsertLines, Split, Join, PassOne;
    var j := JobOf(conf, p, d);
    MergedLines(conf, p, d);
    OkResolves(j);
    SplicedIsSafe(j);
  }
}
