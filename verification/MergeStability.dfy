/**
 Running the merge again: a merged conf is a fixed point of its own epoch, whatever defaults
 the next process draws, and stays one under params-less top-ups.
 */
module MergeStability {
  import opened Common
  import opened Text
  import opened Params
  import opened FieldSpecs
  import opened ConfMerge
  import opened SpliceProofs
  import opened MergeTheorems

  /** A job whose merge has nothing left to write. */
  ghost predicate Settled(j: Job) {
    && AllResolve(j)
    && Check(WireOf(j)).None?
    && (forall k :: !Act(k, j).Insert?)
    && (forall k :: InPlace(k, j))
    && (forall k :: EpochOf(k, j.params).None? && HasDefault(k) ==> ConfRaw(k, j.conf).Some?)
  }

  ghost predicate InPlace(k: Key, j: Job) {
    Act(k, j).Replace? ==> forall line :: line in Select(j.conf, Some(k)) ==> line == Act(k, j).line
  }

  predicate HasDefault(k: Key) {
    k == Jc || k == Jmin || k == Jmax || k == I1 || k == ContentPaddingAddition
  }

  lemma {:induction false} NoInserts(ks: seq<Key>, j: Job)
    requires forall k :: !Act(k, j).Insert?
    ensures InsertLines(ks, j) == []
  {
    if ks != [] {
      NoInserts(ks[1..], j);
    }
  }

  lemma {:induction false} RewriteFixed(line: string, j: Job)
    requires line in j.conf
    requires Owner(line).Some? ==> InPlace(Owner(line).value, j)
    ensures Rewrite(line, j) == line
  {
    SelectHas(j.conf, line);
  }

  /** A settled job returns its own lines. */
  lemma {:induction false} SettledIsFixed(j: Job)
    requires Settled(j)
    ensures CanInsert(j) && Spliced(j) == j.conf
  {
    hide Act, Rewrite, WireOf, Check, AllResolve, Owner;
    NoInserts(Table, j);
    forall i | 0 <= i < |j.conf| ensures Rewrite(j.conf[i], j) == j.conf[i] {
      RewriteFixed(j.conf[i], j);
    }
  }

  // ---- the defaults do not matter ------------------------------------------------------

  lemma {:induction false} PassOneAnyDefaults(k: Key, j: Job, d: ClientDefaults)
    requires EpochOf(k, j.params).None? && HasDefault(k) ==> ConfRaw(k, j.conf).Some?
    ensures PassOne(k, j.(defaults := d)) == PassOne(k, j)
  {
  }

  lemma {:induction false} OmittedSame(ks: seq<Key>, a: Job, b: Job)
    requires forall k :: PassOne(k, a).Row? && PassOne(k, b).Row? && PassOne(k, a).drop == PassOne(k, b).drop
    ensures Omitted(ks, a) == Omitted(ks, b)
  {
    if ks != [] {
      OmittedSame(ks[1..], a, b);
    }
  }

  lemma {:induction false} SettledAnyDefaults(j: Job, d: ClientDefaults)
    requires Settled(j)
    ensures Settled(j.(defaults := d)) && Dropped(j.(defaults := d)) == Dropped(j)
  {
    hide PassOne, FinalRow, Act, Softens, Check, WireOf;
    var i := j.(defaults := d);
    forall k ensures PassOne(k, i) == PassOne(k, j) {
      PassOneAnyDefaults(k, j, d);
    }
    forall k ensures FinalRow(k, i) == FinalRow(k, j) && Act(k, i) == Act(k, j) && InPlace(k, i) {
      SameFinal(k, i, j);
      assert InPlace(k, j);
    }
    assert forall k :: Alike(k, Resolved(k, i), Resolved(k, j)) by {
      forall k ensures Alike(k, Resolved(k, i), Resolved(k, j)) {
        SelfAlike(k, Resolved(k, j));
      }
    }
    SameWires(i, j);
    OmittedSame(Table, i, j);
    SameFinal(Jmin, i, j);
  }

  lemma {:induction false} SameFinal(k: Key, i: Job, j: Job)
    requires i.params == j.params && i.conf == j.conf
    requires forall m :: PassOne(m, i) == PassOne(m, j)
    ensures FinalRow(k, i) == FinalRow(k, j) && Act(k, i) == Act(k, j)
    ensures Softens(i) == Softens(j)
  {
    hide PassOne;
  }

  lemma {:induction false} ResolveAll(ks: seq<Key>, j: Job)
    requires AllResolve(j)
    ensures FirstRejected(ks, j).None?
  {
    if ks != [] {
      ResolveAll(ks[1..], j);
    }
  }

  lemma {:induction false} SettledMerges(j: Job)
    requires Settled(j) && |j.conf| >= 1
    ensures MergeJob(j) == Ok(Join(j.conf, '\n'), Dropped(j))
  {
    ResolveAll(Table, j);
    SettledIsFixed(j);
  }

  // ---- a merge settles its conf ----------------------------------------------------------

  /** The defaults pass the validators of their own rows. */
  ghost predicate DefaultsPass(d: ClientDefaults) {
    forall k :: DefaultOf(k, d).Some? ==> Valid(k, DefaultOf(k, d).value)
  }

  /** The first pass over the merged lines, against the first pass over the original ones. */
  lemma {:induction false} PassOneAgain(k: Key, j: Job, i: Job)
    requires CanInsert(j) && PassOne(k, j).Row?
    requires i == j.(conf := Spliced(j))
    requires DefaultsPass(j.defaults)
    ensures PassOne(k, i).Row? && PassOne(k, i).drop == PassOne(k, j).drop
    ensures Alike(k, Eff(PassOne(k, i)), Eff(PassOne(k, j)))
    ensures EpochOf(k, j.params).None? && HasDefault(k) ==> ConfRaw(k, i.conf).Some?
    ensures !TakenBack(k, j) ==> !PassOne(k, i).act.Insert?
    ensures !TakenBack(k, j) && PassOne(k, i).act.Replace? ==>
              PassOne(k, i).act.line == Act(k, j).line && !Act(k, j).Keep?
  {
    hide Valid, Spliced, ConfRaw, ConfValue, Render, Softens, KindOf, ClassOf, EpochOf, CanInsert, Alike;
    RawAfter(k, j);
    ReadBackAlike(k, j);
    SelfAlike(k, Eff(PassOne(k, j)));
    if DefaultOf(k, j.defaults).Some? {
      assert Valid(k, DefaultOf(k, j.defaults).value);
    }
  }

  lemma {:induction false} RawAfter(k: Key, j: Job)
    requires CanInsert(j)
    ensures Act(k, j).Keep? ==>
              && ConfRaw(k, Spliced(j)) == ConfRaw(k, j.conf)
              && ConfValue(k, Spliced(j)) == ConfValue(k, j.conf)
    ensures !Act(k, j).Keep? ==> ConfRaw(k, Spliced(j)).Some?
  {
    hide Spliced, ConfRaw, ConfValue, Act, CanInsert, Select;
    SelectSpliced(j, Some(k));
    RawIsFirst(k, j.conf);
    RawIsFirst(k, Spliced(j));
    if Act(k, j).Keep? {
      SameLinesSameValue(k, Spliced(j), j.conf);
    } else if Act(k, j).Replace? {
      ReplacedRaw(k, j);
    }
  }

  lemma {:induction false} ReplacedRaw(k: Key, j: Job)
    requires Act(k, j).Replace?
    ensures ConfRaw(k, j.conf).Some?
  {
  }

  lemma SelfAlike(k: Key, a: Option<FieldValue>)
    ensures Alike(k, a, a)
  {
  }

  lemma {:induction false} SoftensAgain(j: Job, i: Job)
    requires CanInsert(j) && AllResolve(j)
    requires i == j.(conf := Spliced(j))
    requires DefaultsPass(j.defaults)
    ensures Softens(i) == Softens(j)
  {
    hide PassOne, Spliced, CanInsert;
    PassOneAgain(Jmin, j, i);
    PassOneAgain(Jmax, j, i);
  }

  lemma {:induction false} WrittenInPlace(k: Key, j: Job)
    requires CanInsert(j) && !Act(k, j).Keep?
    ensures forall line :: line in Select(Spliced(j), Some(k)) ==> line == Act(k, j).line
  {
    hide Act, Spliced, CanInsert, Select;
    SelectSpliced(j, Some(k));
  }

  lemma {:induction false} FinalAgain(k: Key, j: Job, i: Job)
    requires CanInsert(j) && AllResolve(j)
    requires i == j.(conf := Spliced(j))
    requires DefaultsPass(j.defaults)
    ensures Alike(k, Resolved(k, i), Resolved(k, j))
    ensures !Act(k, i).Insert?
    ensures InPlace(k, i)
  {
    hide PassOne, Spliced, Softens, CanInsert, ConfRaw, ConfValue, Select, KindOf, Render, EpochOf, Valid;
    SoftensAgain(j, i);
    PassOneAgain(k, j, i);
    RawAfter(k, j);
    SelfAlike(k, ConfValue(k, j.conf));
    if !Act(k, j).Keep? {
      WrittenInPlace(k, j);
    }
  }

  lemma {:induction false} MergeSettles(j: Job)
    requires CanInsert(j) && AllResolve(j) && Check(WireOf(j)).None?
    requires DefaultsPass(j.defaults)
    ensures Settled(j.(conf := Spliced(j)))
    ensures Dropped(j.(conf := Spliced(j))) == Dropped(j)
  {
    hide PassOne, Act, Spliced, Softens, CanInsert, ConfRaw, Check, WireOf, Resolved, Alike;
    var i := j.(conf := Spliced(j));
    forall k ensures PassOne(k, i).Row? && PassOne(k, i).drop == PassOne(k, j).drop {
      PassOneAgain(k, j, i);
    }
    SoftensAgain(j, i);
    OmittedSame(Table, i, j);
    forall k
      ensures Alike(k, Resolved(k, i), Resolved(k, j)) && !Act(k, i).Insert? && InPlace(k, i)
    {
      FinalAgain(k, j, i);
    }
    forall k | EpochOf(k, j.params).None? && HasDefault(k) ensures ConfRaw(k, i.conf).Some? {
      PassOneAgain(k, j, i);
    }
    SameWires(i, j);
  }

  lemma {:induction false} SameWires(i: Job, j: Job)
    requires forall k :: Alike(k, Resolved(k, i), Resolved(k, j))
    ensures WireOf(i) == WireOf(j)
  {
    hide Resolved;
    assert forall k :: KindOf(k).SInt? ==> Resolved(k, i) == Resolved(k, j);
    assert forall k :: KindOf(k).HRange? ==> HBounds(Resolved(k, i)) == HBounds(Resolved(k, j));
  }

  /** Idempotence across restarts: merging the same epoch (or none) into the conf a merge
      returned gives the same text and the same dropped list, whatever defaults are drawn. */
  lemma {:induction false} Idempotent(conf: string, p: Option<AwgParams>, d1: ClientDefaults, d2: ClientDefaults)
    requires Merge(conf, p, d1).Ok? && DefaultsPass(d1)
    ensures Merge(Merge(conf, p, d1).text, p, d2) == Merge(conf, p, d1)
  {
    hide Spliced, Dropped, Check, WireOf, PassOne, Settled, CanInsert, Split, Join, DefaultsPass;
    var j := JobOf(conf, p, d1);
    MergedLines(conf, p, d1);
    OkResolves(j);
    MergeSettles(j);
    var i := j.(conf := Spliced(j));
    SettledAnyDefaults(i, d2);
    SettledMerges(i.(defaults := d2));
  }
}
