/**
 Params-less top-ups never unsettle a conf: after any number of restarts the epoch that was
 merged last still has nothing to write.
 */
module TopUps {
  import opened Common
  import opened Text
  import opened Params
  import opened FieldSpecs
  import opened ConfMerge
  import opened SpliceProofs
  import opened MergeTheorems
  import opened MergeStability

  /** A top-up `t` over the conf of a settled job `j`. */
  ghost predicate TopUp(j: Job, t: Job) {
    && Settled(j)
    && t == j.(params := None)
    && AllResolve(t) && Check(WireOf(t)).None? && CanInsert(t)
  }

  /** A top-up keeps every key it does not insert, and inserts only keys that have a default,
      no line, and an epoch value that was refused or taken back. */
  lemma {:induction false} TopUpActs(k: Key, j: Job, t: Job)
    requires TopUp(j, t)
    ensures Act(k, t).Keep? || Act(k, t).Insert?
    ensures Act(k, t).Insert? ==> HasDefault(k) && ConfRaw(k, j.conf).None? && EpochOf(k, j.params).Some?
  {
    hide Valid, Render, ConfRaw, ConfValue, KindOf, Check, WireOf, CanInsert, InPlace;
  }

  lemma {:induction false} KeptRow(k: Key, j: Job, t: Job)
    requires TopUp(j, t) && Act(k, t).Keep?
    ensures PassOne(k, j.(conf := Spliced(t))) == PassOne(k, j)
    ensures ConfRaw(k, Spliced(t)) == ConfRaw(k, j.conf)
    ensures ConfValue(k, Spliced(t)) == ConfValue(k, j.conf)
    ensures Select(Spliced(t), Some(k)) == Select(j.conf, Some(k))
  {
    hide Valid, Render, ConfRaw, ConfValue, KindOf, Check, WireOf, CanInsert, InPlace, Select, Act, Spliced, Settled;
    RawAfter(k, t);
    SelectSpliced(t, Some(k));
  }

  lemma {:induction false} InsertedRow(k: Key, j: Job, t: Job)
    requires TopUp(j, t) && Act(k, t).Insert?
    ensures var i := j.(conf := Spliced(t));
            && PassOne(k, i).Row?
            && EpochOf(k, j.params).Some?
            && (Valid(k, EpochOf(k, j.params).value) ==>
                  TakenBack(k, j) && Eff(PassOne(k, i)) == Eff(PassOne(k, j)))
            && (!Valid(k, EpochOf(k, j.params).value) ==>
                  PassOne(k, i).act.Keep? && PassOne(k, j).eff.None?)
  {
    hide Valid, Render, ConfRaw, ConfValue, KindOf, Check, WireOf, CanInsert, InPlace, Select, Spliced, Softens;
    TopUpActs(k, j, t);
    RawAfter(k, t);
    NoRawNoValue(k, j.conf);
    assert !Act(k, j).Insert?;
  }

  lemma {:induction false} NoRawNoValue(k: Key, ls: seq<string>)
    ensures ConfRaw(k, ls).None? ==> ConfValue(k, ls).None?
  {
  }

  /** In a settled job, a junk value that was not taken back is the one its line carries. */
  lemma {:induction false} SettledValue(k: Key, j: Job)
    requires Settled(j) && KindOf(k).JunkCount? && !TakenBack(k, j)
    ensures Eff(PassOne(k, j)) == ConfValue(k, j.conf)
  {
    hide Settled, PassOne, Softens, Spliced, CanInsert, ConfValue;
    assert PassOne(k, j).Row? by {
      SettledResolves(k, j);
    }
    SettledIsFixed(j);
    ReadBackAlike(k, j);
  }

  lemma {:induction false} SettledResolves(k: Key, j: Job)
    requires Settled(j)
    ensures PassOne(k, j).Row? && !Act(k, j).Insert? && InPlace(k, j)
  {
    hide Act, InPlace, PassOne;
  }

  lemma {:induction false} JunkAfter(k: Key, j: Job, t: Job)
    requires TopUp(j, t) && KindOf(k).JunkCount?
    ensures var i := j.(conf := Spliced(t));
            && (!Softens(j) ==> Eff(PassOne(k, i)) == ConfValue(k, i.conf))
            && (Softens(j) && Eff(PassOne(k, j)).Some? ==> Eff(PassOne(k, i)) == Eff(PassOne(k, j)))
            && (EpochOf(k, j.params).None? ==> Eff(PassOne(k, i)) == ConfValue(k, i.conf))
  {
    hide Valid, ConfRaw, ConfValue, KindOf, Check, WireOf, CanInsert, InPlace, Select, Spliced, Softens, Act, PassOne;
    TopUpActs(k, j, t);
    if Act(k, t).Keep? {
      KeptRow(k, j, t);
      if !TakenBack(k, j) {
        SettledValue(k, j);
      }
    } else {
      InsertedRow(k, j, t);
    }
  }

  lemma {:induction false} TopUpJunk(j: Job, t: Job)
    requires TopUp(j, t)
    ensures WireOf(t).junk == Pair(ConfValue(Jmin, Spliced(t)), ConfValue(Jmax, Spliced(t)))
    ensures !Inverted(WireOf(t).junk)
  {
    hide PassOne, ConfValue, CanInsert, InPlace, Spliced, Settled, Check, AllResolve, Resolved;
    WireAgrees(t);
    CheckedJunk(WireOf(t));
  }

  lemma {:induction false} JunkSoftens(j: Job, t: Job)
    requires TopUp(j, t)
    ensures Softens(j.(conf := Spliced(t))) == Softens(j)
  {
    hide PassOne, ConfValue, CanInsert, InPlace, Spliced, Settled, Check, AllResolve, WireOf;
    JunkAfter(Jmin, j, t);
    JunkAfter(Jmax, j, t);
    TopUpJunk(j, t);
  }

  /** After a top-up the junk pair is the ordered pair the top-up itself checked. */
  lemma {:induction false} JunkOrdered(j: Job, t: Job)
    requires TopUp(j, t)
    ensures var i := j.(conf := Spliced(t));
            && Softens(i) == Softens(j)
            && Pair(Resolved(Jmin, i), Resolved(Jmax, i)) == WireOf(t).junk
            && !Inverted(WireOf(t).junk)
  {
    hide PassOne, ConfValue, CanInsert, InPlace, Spliced, Settled, Check, AllResolve, WireOf, Softens, Pair, RowOk,
         TopUp;
    JunkSoftens(j, t);
    JunkAfter(Jmin, j, t);
    JunkAfter(Jmax, j, t);
    TopUpJunk(j, t);
  }

  lemma CheckedJunk(w: Wire)
    requires |w.h| == 4 && Check(w).None?
    ensures !Inverted(w.junk)
    ensures forall pair :: !Inverted(pair) ==> Check(w.(junk := pair)).None?
  {
  }

  lemma {:induction false} FinalKept(k: Key, j: Job, t: Job)
    requires TopUp(j, t) && Act(k, t).Keep?
    ensures FinalRow(k, j.(conf := Spliced(t))) == FinalRow(k, j)
    ensures Select(Spliced(t), Some(k)) == Select(j.conf, Some(k))
    ensures ConfRaw(k, Spliced(t)) == ConfRaw(k, j.conf)
  {
    hide PassOne, ConfRaw, ConfValue, CanInsert, Spliced, Softens, Check, WireOf, Select, Act, Settled;
    JunkOrdered(j, t);
    KeptRow(k, j, t);
  }

  lemma {:induction false} FinalInserted(k: Key, j: Job, t: Job)
    requires TopUp(j, t) && Act(k, t).Insert?
    ensures HasDefault(k) && EpochOf(k, j.params).Some?
    ensures FinalRow(k, j.(conf := Spliced(t))).Row? && FinalRow(k, j.(conf := Spliced(t))).act.Keep?
  {
    hide PassOne, ConfRaw, ConfValue, CanInsert, Spliced, Softens, Check, WireOf, Select, Act, Settled, Valid, EpochOf;
    JunkOrdered(j, t);
    TopUpActs(k, j, t);
    InsertedRow(k, j, t);
  }

  lemma {:induction false} FinalAfter(k: Key, j: Job, t: Job)
    requires TopUp(j, t)
    ensures var i := j.(conf := Spliced(t));
            && PassOne(k, i).Row?
            && !Act(k, i).Insert?
            && InPlace(k, i)
            && (!HasDefault(k) ==> Resolved(k, i) == Resolved(k, j))
            && (EpochOf(k, j.params).None? && HasDefault(k) ==> ConfRaw(k, i.conf).Some?)
  {
    hide FinalRow, PassOne, ConfRaw, CanInsert, Spliced, Check, WireOf, Select, EpochOf;
    TopUpActs(k, j, t);
    SettledResolves(k, j);
    if Act(k, t).Keep? {
      FinalKept(k, j, t);
    } else {
      FinalInserted(k, j, t);
    }
  }

  lemma {:induction false} WireButJunk(i: Job, j: Job)
    requires forall k :: !HasDefault(k) ==> Resolved(k, i) == Resolved(k, j)
    ensures WireOf(i) == WireOf(j).(junk := Pair(Resolved(Jmin, i), Resolved(Jmax, i)))
  {
    hide Resolved;
  }

  /** A successful top-up over a settled conf leaves it settled. */
  lemma {:induction false} TopUpKeepsSettled(j: Job, t: Job)
    requires TopUp(j, t)
    ensures Settled(j.(conf := Spliced(t)))
  {
    hide PassOne, ConfRaw, CanInsert, Spliced, Resolved, Act, InPlace, Softens, Check, WireOf, HasDefault, EpochOf;
    var i := j.(conf := Spliced(t));
    forall k
      ensures PassOne(k, i).Row? && !Act(k, i).Insert? && InPlace(k, i)
      ensures !HasDefault(k) ==> Resolved(k, i) == Resolved(k, j)
      ensures EpochOf(k, j.params).None? && HasDefault(k) ==> ConfRaw(k, i.conf).Some?
    {
      FinalAfter(k, j, t);
    }
    JunkOrdered(j, t);
    WireButJunk(i, j);
    CheckedJunk(WireOf(j));
  }

  // ---- stated of texts --------------------------------------------------------------------

  /** Merging `p` into `conf` has nothing to write, under any defaults. */
  ghost predicate Stable(conf: string, p: Option<AwgParams>) {
    forall d :: Settled(JobOf(conf, p, d))
  }

  lemma {:induction false} AnyDefaultsStable(conf: string, p: Option<AwgParams>, d: ClientDefaults)
    requires Settled(JobOf(conf, p, d))
    ensures Stable(conf, p)
  {
    hide Settled, Split;
    forall e ensures Settled(JobOf(conf, p, e)) {
      SettledAnyDefaults(JobOf(conf, p, d), e);
    }
  }

  /** A merge leaves a conf on which its epoch has nothing left to write. */
  lemma {:induction false} MergeIsStable(conf: string, p: Option<AwgParams>, d: ClientDefaults)
    requires Merge(conf, p, d).Ok? && DefaultsPass(d)
    ensures Stable(Merge(conf, p, d).text, p)
  {
    hide Settled, Split, Join, Spliced, Check, WireOf, PassOne, CanInsert, Dropped, Stable, DefaultsPass;
    var j := JobOf(conf, p, d);
    MergedLines(conf, p, d);
    OkResolves(j);
    MergeSettles(j);
    AnyDefaultsStable(Merge(conf, p, d).text, p, d);
  }

  /** On a stable conf the merge returns the conf itself. */
  lemma {:induction false} StableMerges(conf: string, p: Option<AwgParams>, d: ClientDefaults)
    requires Stable(conf, p)
    ensures Merge(conf, p, d).Ok? && Merge(conf, p, d).text == conf
  {
    hide Settled, Dropped;
    SettledMerges(JobOf(conf, p, d));
  }

  /** Top-ups, with whatever defaults each restart draws, keep a conf stable. */
  lemma {:induction false} TopUpIsHarmless(conf: string, p: Option<AwgParams>, d: ClientDefaults)
    requires Stable(conf, p) && Merge(conf, None, d).Ok?
    ensures Stable(Merge(conf, None, d).text, p)
  {
    hide Settled, Split, Join, Spliced, Check, WireOf, PassOne, CanInsert, Dropped;
    var j, t := JobOf(conf, p, d), JobOf(conf, None, d);
    MergedLines(conf, None, d);
    OkResolves(t);
    TopUpKeepsSettled(j, t);
    AnyDefaultsStable(Merge(conf, None, d).text, p, d);
  }

  // ---- when a top-up succeeds ----------------------------------------------------------------

  /** The junk bound a top-up leaves: the conf's own line, or the default of an absent key. */
  function JunkLeft(k: Key, ls: seq<string>, d: ClientDefaults): Option<FieldValue> {
    if ConfRaw(k, ls).Some? then ConfValue(k, ls) else DefaultOf(k, d)
  }

  lemma {:induction false} TopUpRow(k: Key, t: Job)
    requires t.params.None? && DefaultsPass(t.defaults)
    ensures PassOne(k, t).Row? && Resolved(k, t) == JunkLeft(k, t.conf, t.defaults)
    ensures !HasDefault(k) ==> Resolved(k, t) == ConfValue(k, t.conf)
    ensures Act(k, t).Insert? <==> HasDefault(k) && ConfRaw(k, t.conf).None?
  {
    hide Valid, Render, ConfRaw, ConfValue, Softens, PassOne;
    NoRawNoValue(k, t.conf);
    TopUpPass(k, t);
  }

  lemma {:induction false} TopUpPass(k: Key, t: Job)
    requires t.params.None? && DefaultsPass(t.defaults)
    ensures PassOne(k, t) ==
            if ConfRaw(k, t.conf).Some? then Row(Keep, ConfValue(k, t.conf), false)
            else match DefaultOf(k, t.defaults)
                 case Some(v) => Row(Insert(Render(k, v)), Some(v), false)
                 case None => Row(Keep, None, false)
  {
    hide Valid, Render, ConfRaw, ConfValue;
  }

  lemma {:induction false} SomeInsert(ks: seq<Key>, j: Job, k: Key)
    requires k in ks && Act(k, j).Insert?
    ensures InsertLines(ks, j) != []
  {
    hide Act;
    if ks[0] != k {
      SomeInsert(ks[1..], j, k);
    }
  }

  lemma {:induction false} TopUpInserts(t: Job)
    requires t.params.None? && DefaultsPass(t.defaults)
    ensures InsertLines(Table, t) == [] <==> forall k :: HasDefault(k) ==> ConfRaw(k, t.conf).Some?
  {
    hide InsertLines, Act, ConfRaw, DefaultsPass;
    forall k
      ensures Act(k, t).Insert? <==> HasDefault(k) && ConfRaw(k, t.conf).None?
    {
      TopUpRow(k, t);
    }
    if k :| Act(k, t).Insert? {
      TableComplete(k);
      SomeInsert(Table, t, k);
    } else {
      NoInserts(Table, t);
    }
  }

  /** A top-up succeeds exactly when the conf's own must-match values pass the checks, the junk
      bounds it leaves are in order, and there is a section to insert into if a default is missing.
      In particular a conf with one junk bound can clash with the default drawn for the other. */
  lemma {:induction false} TopUpVerdict(conf: string, d: ClientDefaults)
    requires DefaultsPass(d)
    ensures var ls := Split(conf, '\n');
            Merge(conf, None, d).Ok? <==>
              && CheckMustMatch(WireOfConf(ls)).None?
              && !Inverted(Pair(JunkLeft(Jmin, ls, d), JunkLeft(Jmax, ls, d)))
              && (HeaderIndex(ls) < |ls| || forall k :: HasDefault(k) ==> ConfRaw(k, ls).Some?)
  {
    hide Split, PassOne, ConfRaw, ConfValue, JunkLeft, Inverted, Spliced, InsertLines, DefaultsPass, WireOf,
         WireOfConf, CheckMustMatch, HasDefault;
    var t := JobOf(conf, None, d);
    forall k
      ensures PassOne(k, t).Row?
    {
      TopUpRow(k, t);
    }
    ResolveAll(Table, t);
    TopUpInserts(t);
    TopUpWire(t);
  }

  lemma {:induction false} TopUpWire(t: Job)
    requires t.params.None? && DefaultsPass(t.defaults)
    ensures WireOf(t).junk == Pair(JunkLeft(Jmin, t.conf, t.defaults), JunkLeft(Jmax, t.conf, t.defaults))
    ensures CheckMustMatch(WireOf(t)) == CheckMustMatch(WireOfConf(t.conf))
  {
    hide PassOne, Resolved, ConfRaw, ConfValue, JunkLeft, DefaultsPass, CheckMustMatch, SNum, HBounds, KeyActive, Pair,
         Act;
    TopUpKept(S1, t);
    TopUpKept(S2, t);
    TopUpKept(S3, t);
    TopUpKept(S4, t);
    TopUpKept(H1, t);
    TopUpKept(H2, t);
    TopUpKept(H3, t);
    TopUpKept(H4, t);
    TopUpKept(HeaderProtectionKey, t);
    TopUpRow(Jmin, t);
    TopUpRow(Jmax, t);
    assert WireOf(t) == WireOfConf(t.conf).(junk := WireOf(t).junk);
    JunkUnchecked(WireOfConf(t.conf), WireOf(t).junk);
  }

  lemma {:induction false} TopUpKept(k: Key, t: Job)
    requires t.params.None? && DefaultsPass(t.defaults) && !HasDefault(k)
    ensures Resolved(k, t) == ConfValue(k, t.conf)
  {
    hide Resolved, ConfValue, PassOne, Act, JunkLeft, DefaultsPass;
    TopUpRow(k, t);
  }
}
