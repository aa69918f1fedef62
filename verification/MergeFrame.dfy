/**
 What a merge leaves alone: the frame of the splice, the provenance of every line, and the
 independence of one client-side field from all the others.
 */
module MergeFrame {
  import opened Common
  import opened Text
  import opened Params
  import opened FieldSpecs
  import opened ConfMerge
  import opened SpliceProofs
  import opened MergeTheorems

  // ---- the frame ----------------------------------------------------------------------------

  /** A line of the input against its image: untouched, or every byte of it replaced by the
      canonical rendering of the epoch's value for the key it belongs to. */
  ghost predicate Image(before: string, after: string, p: Option<AwgParams>) {
    || after == before
    || exists k, v :: Owner(before) == Some(k) && EpochOf(k, p) == Some(v) && Valid(k, v) && after == Render(k, v)
  }

  /** `b` is `a` with a block of `n` lines after the line `h - 1`, which is the first
      `[Interface]` line; the block holds keys absent from `a`, in strict table order. */
  ghost predicate Framed(a: seq<string>, b: seq<string>, h: nat, n: nat, p: Option<AwgParams>) {
    && h <= |a| && |b| == |a| + n
    && (n > 0 ==> h > 0 && HeaderIndex(a) == h - 1)
    && (forall i :: 0 <= i < h ==> Image(a[i], b[i], p))
    && (forall i :: h <= i < |a| ==> Image(a[i], b[i + n], p))
    && (forall i :: h <= i < h + n ==> Owner(b[i]).Some? && ConfRaw(Owner(b[i]).value, a).None?)
    && (forall x, y :: h <= x < y < h + n ==> Rank(Owner(b[x]).value) < Rank(Owner(b[y]).value))
  }

  lemma {:induction false} RewriteImage(line: string, j: Job)
    requires line in j.conf
    ensures Image(line, Rewrite(line, j), j.params)
  {
    hide Render, Valid, Owner;
    var o := Owner(line);
    if o.Some? && Act(o.value, j).Replace? {
      ReplaceSource(o.value, j);
    }
  }

  lemma {:induction false} ReplaceSource(k: Key, j: Job)
    requires Act(k, j).Replace?
    ensures EpochOf(k, j.params).Some? && Valid(k, EpochOf(k, j.params).value)
    ensures Act(k, j).line == Render(k, EpochOf(k, j.params).value)
  {
    hide Render, Valid, EpochOf, KindOf, ConfRaw, ConfValue;
  }

  lemma {:induction false} InsertSource(k: Key, j: Job)
    requires Act(k, j).Insert?
    ensures ConfRaw(k, j.conf).None?
    ensures EpochOf(k, j.params).Some? ==>
              Valid(k, EpochOf(k, j.params).value) && Act(k, j).line == Render(k, EpochOf(k, j.params).value)
    ensures EpochOf(k, j.params).None? ==>
              && DefaultOf(k, j.defaults).Some? && Valid(k, DefaultOf(k, j.defaults).value)
              && Act(k, j).line == Render(k, DefaultOf(k, j.defaults).value)
  {
    hide Render, Valid, EpochOf, KindOf, ConfRaw, ConfValue;
  }

  /** The lines carry keys of rank `i` or more, in strict table order, all absent from `conf`. */
  ghost predicate BlockOk(b: seq<string>, i: nat, conf: seq<string>) {
    && (forall x :: 0 <= x < |b| ==> Owner(b[x]).Some? && ConfRaw(Owner(b[x]).value, conf).None?)
    && (forall x :: 0 <= x < |b| ==> Rank(Owner(b[x]).value) >= i)
    && (forall x, y :: 0 <= x < y < |b| ==> Rank(Owner(b[x]).value) < Rank(Owner(b[y]).value))
  }

  lemma {:induction false} BlockCons(l: string, b: seq<string>, i: nat, conf: seq<string>)
    requires BlockOk(b, i + 1, conf)
    requires Owner(l).Some? && Rank(Owner(l).value) == i && ConfRaw(Owner(l).value, conf).None?
    ensures BlockOk([l] + b, i, conf)
  {
    hide Owner, ConfRaw, Rank;
  }

  lemma {:induction false} RankOfTable(i: nat)
    requires i < |Table|
    ensures Rank(Table[i]) == i
  {
    TableDistinct();
  }

  lemma {:induction false} BlockOrdered(i: nat, j: Job)
    requires i <= |Table|
    ensures BlockOk(InsertLines(Table[i..], j), i, j.conf)
    decreases |Table| - i
  {
    hide Owner, ConfRaw, Act, Rank, Table;
    if i < |Table| {
      var k := Table[i];
      assert Table[i..][1..] == Table[i + 1..];
      BlockOrdered(i + 1, j);
      RankOfTable(i);
      if Act(k, j).Insert? {
        WrittenOwner(k, j);
        InsertSource(k, j);
        BlockCons(Act(k, j).line, InsertLines(Table[i + 1..], j), i, j.conf);
      } else {
        assert InsertLines(Table[i..], j) == InsertLines(Table[i + 1..], j);
      }
    }
  }

  /** The splice frame: input lines in order, replaced ones canonical, one block at most. */
  lemma {:induction false} SpliceFrame(conf: string, p: Option<AwgParams>, d: ClientDefaults) returns (h: nat, n: nat)
    requires Merge(conf, p, d).Ok?
    ensures Framed(Split(conf, '\n'), Split(Merge(conf, p, d).text, '\n'), h, n, p)
  {
    hide Split, Join, Owner, ConfRaw, Image, Rewrite, Check, WireOf, PassOne, Dropped, InsertLines;
    var j := JobOf(conf, p, d);
    MergedLines(conf, p, d);
    var block := InsertLines(Table, j);
    h, n := if block == [] then 0 else HeaderIndex(j.conf) + 1, |block|;
    forall i | 0 <= i < |j.conf| ensures Image(j.conf[i], Rewrite(j.conf[i], j), p) {
      RewriteImage(j.conf[i], j);
    }
    BlockOrdered(0, j);
    assert Table[0..] == Table;
    FramedSplice(j, h);
  }

  lemma {:induction false} FramedSplice(j: Job, h: nat)
    requires CanInsert(j)
    requires var block := InsertLines(Table, j);
             && h == (if block == [] then 0 else HeaderIndex(j.conf) + 1)
             && BlockOk(block, 0, j.conf)
    requires forall i :: 0 <= i < |j.conf| ==> Image(j.conf[i], Rewrite(j.conf[i], j), j.params)
    ensures Framed(j.conf, Spliced(j), h, |InsertLines(Table, j)|, j.params)
  {
    hide Owner, ConfRaw, Image, Rewrite, InsertLines, Rank, Rewritten, HeaderIndex, Table, BlockOk;
    var block, r := InsertLines(Table, j), Rewritten(j.conf, j);
    NothingBetween(r, h);
    assert Spliced(j) == r[..h] + block + r[h..];
    FrameParts(j.conf, r, h, block, j.params);
  }

  lemma {:induction false} FrameParts(a: seq<string>, r: seq<string>, h: nat, block: seq<string>, p: Option<AwgParams>)
    requires |r| == |a| && h <= |a| && BlockOk(block, 0, a)
    requires block != [] ==> h > 0 && HeaderIndex(a) == h - 1
    requires forall i :: 0 <= i < |a| ==> Image(a[i], r[i], p)
    ensures Framed(a, r[..h] + block + r[h..], h, |block|, p)
  {
    hide Owner, ConfRaw, Image, Rank, HeaderIndex;
    var b, n := r[..h] + block + r[h..], |block|;
    forall i | 0 <= i < h
      ensures Image(a[i], b[i], p)
    {
      assert b[i] == r[i];
    }
    forall i | h <= i < |a|
      ensures Image(a[i], b[i + n], p)
    {
      assert b[i + n] == r[i];
    }
    BlockAt(b, h, block, a);
  }

  lemma {:induction false} BlockAt(b: seq<string>, h: nat, block: seq<string>, a: seq<string>)
    requires h + |block| <= |b| && b[h..h + |block|] == block && BlockOk(block, 0, a)
    ensures forall i :: h <= i < h + |block| ==> Owner(b[i]).Some? && ConfRaw(Owner(b[i]).value, a).None?
    ensures forall x, y :: h <= x < y < h + |block| ==> Rank(Owner(b[x]).value) < Rank(Owner(b[y]).value)
  {
    hide Owner, ConfRaw, Rank;
    assert forall i :: h <= i < h + |block| ==> b[i] == block[i - h];
  }

  // ---- provenance ---------------------------------------------------------------------------

  /** Lines the merge does not own survive, in order: identity fields, peers, headers, comments. */
  lemma {:induction false} UnownedKept(conf: string, p: Option<AwgParams>, d: ClientDefaults)
    requires Merge(conf, p, d).Ok?
    ensures Select(Split(Merge(conf, p, d).text, '\n'), None) == Select(Split(conf, '\n'), None)
  {
    hide Split, Select, Spliced;
    MergedLines(conf, p, d);
    SelectSpliced(JobOf(conf, p, d), None);
  }

  /** Every owned line of the result was in the conf, or renders a valid epoch value, or
      renders a valid default of a client-side key the epoch does not carry. */
  lemma {:induction false} Provenance(conf: string, p: Option<AwgParams>, d: ClientDefaults, line: string)
    requires Merge(conf, p, d).Ok?
    requires line in Split(Merge(conf, p, d).text, '\n') && Owner(line).Some?
    ensures var k := Owner(line).value;
            || line in Split(conf, '\n')
            || (EpochOf(k, p).Some? && Valid(k, EpochOf(k, p).value) && line == Render(k, EpochOf(k, p).value))
            || (&& EpochOf(k, p).None? && ClassOf(k).ClientSide?
                && DefaultOf(k, d).Some? && Valid(k, DefaultOf(k, d).value)
                && line == Render(k, DefaultOf(k, d).value))
  {
    hide Split, Select, Spliced, Render, Valid, Owner, EpochOf, Act, CanInsert, Merge;
    var j, k := JobOf(conf, p, d), Owner(line).value;
    MergedLines(conf, p, d);
    SelectHas(Spliced(j), line);
    SelectSpliced(j, Some(k));
    match Act(k, j)
    case Keep => SelectMember(j.conf, Some(k), line);
    case Replace(_) => ReplaceSource(k, j);
    case Insert(_) => InsertSource(k, j);
  }

  /** A must-match line is never made up: it was in the conf or renders a valid epoch value. */
  lemma {:induction false} MustMatchProvenance(conf: string, p: Option<AwgParams>, d: ClientDefaults, line: string)
    requires Merge(conf, p, d).Ok?
    requires line in Split(Merge(conf, p, d).text, '\n')
    requires Owner(line).Some? && ClassOf(Owner(line).value).MustMatch?
    ensures var k := Owner(line).value;
            || line in Split(conf, '\n')
            || (EpochOf(k, p).Some? && Valid(k, EpochOf(k, p).value) && line == Render(k, EpochOf(k, p).value))
  {
    hide Split, Render, Valid, Owner, EpochOf, Merge;
    Provenance(conf, p, d, line);
  }

  /** A top-up leaves every must-match line as it is. */
  lemma {:induction false} TopUpKeepsMustMatch(conf: string, d: ClientDefaults, k: Key)
    requires Merge(conf, None, d).Ok? && ClassOf(k).MustMatch?
    ensures Select(Split(Merge(conf, None, d).text, '\n'), Some(k)) == Select(Split(conf, '\n'), Some(k))
  {
    hide Split, Select, Spliced, Render, Valid, ConfRaw, ConfValue, CanInsert, Merge;
    var j := JobOf(conf, None, d);
    MergedLines(conf, None, d);
    SelectSpliced(j, Some(k));
    assert Act(k, j).Keep?;
  }

  /** The lines of every key in the result, by source: a valid epoch value takes over every
      line of its key (or adds one); a refused or taken-back value leaves them; a default
      appears only when neither the epoch nor the conf has the key. */
  lemma {:induction false} KeyOutcome(conf: string, p: Option<AwgParams>, d: ClientDefaults, k: Key)
    requires Merge(conf, p, d).Ok?
    ensures var before := Select(Split(conf, '\n'), Some(k));
            var after := Select(Split(Merge(conf, p, d).text, '\n'), Some(k));
            match EpochOf(k, p)
            case Some(v) =>
              if Valid(k, v) && !TakenBack(k, JobOf(conf, p, d))
              then after == Repeat(Render(k, v), if before == [] then 1 else |before|)
              else after == before
            case None =>
              if before == [] && DefaultOf(k, d).Some? && Valid(k, DefaultOf(k, d).value)
              then after == [Render(k, DefaultOf(k, d).value)]
              else after == before
  {
    hide Split, Select, Spliced, Render, Valid, Owner, EpochOf, CanInsert, Merge, ConfRaw, ConfValue, Softens;
    var j := JobOf(conf, p, d);
    assert FinalRow(k, j).Row? by {
      MergeResolves(conf, p, d, k);
    }
    MergedLines(conf, p, d);
    SelectSpliced(j, Some(k));
    RawIsFirst(k, j.conf);
  }

  lemma {:induction false} MergeResolves(conf: string, p: Option<AwgParams>, d: ClientDefaults, k: Key)
    requires Merge(conf, p, d).Ok?
    ensures PassOne(k, JobOf(conf, p, d)).Row?
  {
    hide Split, PassOne, WireOf, Check, CanInsert, Spliced;
    OkResolves(JobOf(conf, p, d));
  }

  // ---- non-interference ---------------------------------------------------------------------

  /** The lines that do not belong to `k`. */
  function Erase(ls: seq<string>, k: Key): seq<string> {
    if ls == [] then []
    else (if Owner(ls[0]) == Some(k) then [] else [ls[0]]) + Erase(ls[1..], k)
  }

  function WithoutKey(ks: seq<Key>, k: Key): seq<Key> {
    if ks == [] then [] else (if ks[0] == k then [] else [ks[0]]) + WithoutKey(ks[1..], k)
  }

  lemma {:induction false} EraseAppend(a: seq<string>, b: seq<string>, k: Key)
    ensures Erase(a + b, k) == Erase(a, k) + Erase(b, k)
  {
    hide Owner;
    if a == [] {
      assert a + b == b;
    } else {
      assert (a + b)[1..] == a[1..] + b;
      EraseAppend(a[1..], b, k);
      Assoc(if Owner(a[0]) == Some(k) then [] else [a[0]], Erase(a[1..], k), Erase(b, k));
    }
  }

  /** Two jobs on the same conf whose rows agree everywhere but at `k`. */
  ghost predicate AgreeBut(i: Job, j: Job, k: Key) {
    && i.conf == j.conf
    && forall m :: m != k ==> Act(m, i) == Act(m, j)
  }

  lemma {:induction false} EraseRewritten(ls: seq<string>, i: Job, j: Job, k: Key)
    requires AgreeBut(i, j, k)
    ensures Erase(Rewritten(ls, i), k) == Erase(Rewritten(ls, j), k)
  {
    hide Owner, Act;
    if ls != [] {
      var a, b := Rewritten(ls, i), Rewritten(ls, j);
      assert a[1..] == Rewritten(ls[1..], i) && b[1..] == Rewritten(ls[1..], j);
      RewriteOwner(ls[0], i);
      RewriteOwner(ls[0], j);
      EraseRewritten(ls[1..], i, j, k);
    }
  }

  lemma {:induction false} EraseInserts(ks: seq<Key>, i: Job, j: Job, k: Key)
    requires AgreeBut(i, j, k)
    ensures Erase(InsertLines(ks, i), k) == Erase(InsertLines(ks, j), k)
  {
    hide Owner, Act;
    if ks != [] {
      EraseInserts(ks[1..], i, j, k);
      EraseHead(ks, i, k);
      EraseHead(ks, j, k);
    }
  }

  lemma {:induction false} EraseHead(ks: seq<Key>, j: Job, k: Key)
    requires ks != []
    ensures Erase(InsertLines(ks, j), k) ==
            (if ks[0] != k && Act(ks[0], j).Insert? then [Act(ks[0], j).line] else [])
            + Erase(InsertLines(ks[1..], j), k)
  {
    hide Owner, Act;
    var tail := InsertLines(ks[1..], j);
    if Act(ks[0], j).Insert? {
      WrittenOwner(ks[0], j);
      assert ([Act(ks[0], j).line] + tail)[1..] == tail;
    } else {
      assert InsertLines(ks, j) == tail;
    }
  }

  lemma {:induction false} RewrittenPart(ls: seq<string>, h: nat, j: Job)
    requires h <= |ls|
    ensures Rewritten(ls, j)[..h] == Rewritten(ls[..h], j)
    ensures Rewritten(ls, j)[h..] == Rewritten(ls[h..], j)
  {
    hide Rewrite;
  }

  /** With a header present, the splice is always "block after the header". */
  lemma {:induction false} SplicedParts(j: Job)
    requires HeaderIndex(j.conf) < |j.conf|
    ensures var h := HeaderIndex(j.conf);
            Spliced(j) == Rewritten(j.conf[..h + 1], j) + InsertLines(Table, j) + Rewritten(j.conf[h + 1..], j)
  {
    hide Rewrite, InsertLines, Table, HeaderIndex, Rewritten;
    var h, r := HeaderIndex(j.conf), Rewritten(j.conf, j);
    RewrittenPart(j.conf, h + 1, j);
    NothingBetween(r, h + 1);
  }

  lemma NothingBetween(r: seq<string>, h: nat)
    requires h <= |r|
    ensures r[..h] + [] + r[h..] == r
  {
  }

  lemma {:induction false} EraseSpliced(j: Job, k: Key)
    requires HeaderIndex(j.conf) < |j.conf|
    ensures var h := HeaderIndex(j.conf);
            Erase(Spliced(j), k) ==
              Erase(Rewritten(j.conf[..h + 1], j), k)
              + Erase(InsertLines(Table, j), k)
              + Erase(Rewritten(j.conf[h + 1..], j), k)
  {
    hide Owner, Act, Table, Rewrite, Erase, Spliced, InsertLines, HeaderIndex, Rewritten;
    var h := HeaderIndex(j.conf);
    var pre, block, post := Rewritten(j.conf[..h + 1], j), InsertLines(Table, j), Rewritten(j.conf[h + 1..], j);
    SplicedParts(j);
    EraseAppend(pre + block, post, k);
    EraseAppend(pre, block, k);
  }

  lemma {:induction false} EraseSame(i: Job, j: Job, k: Key)
    requires AgreeBut(i, j, k) && HeaderIndex(j.conf) < |j.conf|
    ensures Erase(Spliced(i), k) == Erase(Spliced(j), k)
  {
    hide AgreeBut, Spliced, Erase, Rewritten, InsertLines, Table;
    var h := HeaderIndex(j.conf);
    assert i.conf == j.conf by { SameConf(i, j, k); }
    EraseSpliced(i, k);
    EraseSpliced(j, k);
    EraseRewritten(j.conf[..h + 1], i, j, k);
    EraseRewritten(j.conf[h + 1..], i, j, k);
    EraseInserts(Table, i, j, k);
  }

  lemma {:induction false} SameConf(i: Job, j: Job, k: Key)
    requires AgreeBut(i, j, k)
    ensures i.conf == j.conf
  {
  }

  /** Two payloads that differ at most in one client-side field outside the junk pair. */
  ghost predicate DifferOnlyAt(p: AwgParams, q: AwgParams, k: Key) {
    && ClassOf(k).ClientSide? && k != Jmin && k != Jmax
    && forall m :: m != k ==> EpochMember(m, p) == EpochMember(m, q)
  }

  lemma {:induction false} RowsAgree(i: Job, j: Job, k: Key, m: Key)
    requires i.params.Some? && j.params.Some? && DifferOnlyAt(i.params.value, j.params.value, k)
    requires i.conf == j.conf && i.defaults == j.defaults
    ensures m != k ==> PassOne(m, i) == PassOne(m, j) && FinalRow(m, i) == FinalRow(m, j) && Act(m, i) == Act(m, j)
    ensures Softens(i) == Softens(j)
  {
    hide Valid, Render, ConfRaw, ConfValue, EpochMember;
    assert EpochOf(Jmin, i.params) == EpochOf(Jmin, j.params);
    assert EpochOf(Jmax, i.params) == EpochOf(Jmax, j.params);
  }

  lemma {:induction false} RejectedAgree(ks: seq<Key>, i: Job, j: Job, k: Key)
    requires ClassOf(k).ClientSide?
    requires forall m :: m != k ==> PassOne(m, i) == PassOne(m, j)
    ensures FirstRejected(ks, i) == FirstRejected(ks, j)
  {
    hide PassOne;
    if ks != [] {
      RejectedAgree(ks[1..], i, j, k);
    }
  }

  lemma {:induction false} OmittedAgree(ks: seq<Key>, i: Job, j: Job, k: Key)
    requires forall m :: m != k ==> PassOne(m, i) == PassOne(m, j)
    ensures WithoutKey(Omitted(ks, i), k) == WithoutKey(Omitted(ks, j), k)
  {
    hide PassOne;
    if ks != [] {
      OmittedAgree(ks[1..], i, j, k);
      OmittedHead(ks, i, k);
      OmittedHead(ks, j, k);
    }
  }

  lemma {:induction false} OmittedHead(ks: seq<Key>, j: Job, k: Key)
    requires ks != []
    ensures WithoutKey(Omitted(ks, j), k) ==
            (if ks[0] != k && PassOne(ks[0], j).Row? && PassOne(ks[0], j).drop then [ks[0]] else [])
            + WithoutKey(Omitted(ks[1..], j), k)
  {
    hide PassOne;
    var tail := Omitted(ks[1..], j);
    assert ([ks[0]] + tail)[1..] == tail;
    assert [] + tail == tail;
  }

  lemma {:induction false} WithoutAppend(a: seq<Key>, b: seq<Key>, k: Key)
    ensures WithoutKey(a + b, k) == WithoutKey(a, k) + WithoutKey(b, k)
  {
    if a == [] {
      assert a + b == b;
    } else {
      assert (a + b)[1..] == a[1..] + b;
      WithoutAppend(a[1..], b, k);
      Assoc(if a[0] == k then [] else [a[0]], WithoutKey(a[1..], k), WithoutKey(b, k));
    }
  }

  lemma {:induction false} DroppedAgree(i: Job, j: Job, k: Key)
    requires i.params.Some? && j.params.Some? && DifferOnlyAt(i.params.value, j.params.value, k)
    requires i.conf == j.conf && i.defaults == j.defaults
    ensures WithoutKey(Dropped(i), k) == WithoutKey(Dropped(j), k)
  {
    hide PassOne, Table, EpochMember, Softens, WithoutKey, Omitted;
    forall m | m != k ensures PassOne(m, i) == PassOne(m, j) {
      RowsAgree(i, j, k, m);
    }
    RowsAgree(i, j, k, Jmin);
    OmittedAgree(Table, i, j, k);
    assert EpochOf(Jmin, i.params) == EpochOf(Jmin, j.params);
    assert EpochOf(Jmax, i.params) == EpochOf(Jmax, j.params);
    var a, b := if TakenBack(Jmin, i) then [Jmin] else [], if TakenBack(Jmax, i) then [Jmax] else [];
    WithoutAppend(Omitted(Table, i) + a, b, k);
    WithoutAppend(Omitted(Table, i), a, k);
    WithoutAppend(Omitted(Table, j) + a, b, k);
    WithoutAppend(Omitted(Table, j), a, k);
  }

  lemma {:induction false} WiresAgree(i: Job, j: Job, k: Key)
    requires ClassOf(k).ClientSide? && k != Jmin && k != Jmax
    requires forall m :: m != k ==> FinalRow(m, i) == FinalRow(m, j)
    ensures WireOf(i) == WireOf(j)
  {
    hide FinalRow, Resolved;
    forall m | ClassOf(m).MustMatch? || m == Jmin || m == Jmax ensures Resolved(m, i) == Resolved(m, j) {
      SameResolved(m, i, j);
    }
    assert ClassOf(S1).MustMatch? && ClassOf(S2).MustMatch? && ClassOf(S3).MustMatch? && ClassOf(S4).MustMatch?;
    assert ClassOf(H1).MustMatch? && ClassOf(H2).MustMatch? && ClassOf(H3).MustMatch? && ClassOf(H4).MustMatch?;
  }

  lemma {:induction false} SameResolved(m: Key, i: Job, j: Job)
    requires FinalRow(m, i) == FinalRow(m, j)
    ensures Resolved(m, i) == Resolved(m, j)
  {
    hide FinalRow;
  }

  /** Changing one client-side field to any value, valid or not, changes neither the verdict
      nor any line, nor any dropped name, of another key. */
  lemma {:induction false} NonInterference(conf: string, p: AwgParams, q: AwgParams, d: ClientDefaults, k: Key)
    requires DifferOnlyAt(p, q, k)
    requires HeaderIndex(Split(conf, '\n')) < |Split(conf, '\n')|
    ensures var a, b := Merge(conf, Some(p), d), Merge(conf, Some(q), d);
            && (a.Err? || b.Err? ==> a == b)
            && (a.Ok? ==> Erase(Split(a.text, '\n'), k) == Erase(Split(b.text, '\n'), k))
            && (a.Ok? ==> WithoutKey(a.dropped, k) == WithoutKey(b.dropped, k))
  {
    hide Split, Join, Spliced, Dropped, Check, WireOf, PassOne, FinalRow, Act, DifferOnlyAt, Erase, WithoutKey,
         InsertLines, Table;
    var i, j := JobOf(conf, Some(p), d), JobOf(conf, Some(q), d);
    forall m | m != k
      ensures PassOne(m, i) == PassOne(m, j) && FinalRow(m, i) == FinalRow(m, j) && Act(m, i) == Act(m, j)
    {
      RowsAgree(i, j, k, m);
    }
    ClientSideOnly(p, q, k);
    RejectedAgree(Table, i, j, k);
    WiresAgree(i, j, k);
    EraseSame(i, j, k);
    DroppedAgree(i, j, k);
    if Merge(conf, Some(p), d).Ok? {
      MergedLines(conf, Some(p), d);
      MergedLines(conf, Some(q), d);
    }
  }

  lemma {:induction false} ClientSideOnly(p: AwgParams, q: AwgParams, k: Key)
    requires DifferOnlyAt(p, q, k)
    ensures ClassOf(k).ClientSide? && k != Jmin && k != Jmax
  {
  }
}
