/**
 The merge as the code runs it: a loop over the table that fills the working collections,
 the checks, the softening of an inverted junk pair, and the splice; proved equal to the
 function `ConfMerge.Merge`.
 */
module MergeMethod {
  import opened Common
  import opened Text
  import opened Params
  import opened FieldSpecs
  import opened ConfMerge
  import opened SpliceProofs

  type Plan = seq<(Key, string)>

  // ---- the working collections --------------------------------------------------------------

  function Lookup(effective: map<Key, FieldValue>, k: Key): Option<FieldValue> {
    if k in effective then Some(effective[k]) else None
  }

  function PassAct(k: Key, j: Job): Action {
    if PassOne(k, j).Row? then PassOne(k, j).act else Keep
  }

  function PassActs(j: Job): Key -> Action {
    k => PassAct(k, j)
  }

  function InsertList(ks: seq<Key>, f: Key -> Action): Plan {
    if ks == [] then []
    else (match f(ks[0]) case Insert(l) => [(ks[0], l)] case _ => []) + InsertList(ks[1..], f)
  }

  function RewriteList(ks: seq<Key>, f: Key -> Action): Plan {
    if ks == [] then []
    else (match f(ks[0]) case Replace(l) => [(ks[0], l)] case _ => []) + RewriteList(ks[1..], f)
  }

  lemma {:induction false} InsertSnoc(ks: seq<Key>, k: Key, f: Key -> Action)
    ensures InsertList(ks + [k], f) == InsertList(ks, f) + (match f(k) case Insert(l) => [(k, l)] case _ => [])
  {
    if ks == [] {
      assert ([k])[1..] == [];
      assert ks + [k] == [k];
    } else {
      assert (ks + [k])[1..] == ks[1..] + [k];
      InsertSnoc(ks[1..], k, f);
      Assoc(match f(ks[0]) case Insert(l) => [(ks[0], l)] case _ => [], InsertList(ks[1..], f),
            match f(k) case Insert(l) => [(k, l)] case _ => []);
    }
  }

  lemma {:induction false} RewriteSnoc(ks: seq<Key>, k: Key, f: Key -> Action)
    ensures RewriteList(ks + [k], f) == RewriteList(ks, f) + (match f(k) case Replace(l) => [(k, l)] case _ => [])
  {
    if ks == [] {
      assert ([k])[1..] == [];
      assert ks + [k] == [k];
    } else {
      assert (ks + [k])[1..] == ks[1..] + [k];
      RewriteSnoc(ks[1..], k, f);
      Assoc(match f(ks[0]) case Replace(l) => [(ks[0], l)] case _ => [], RewriteList(ks[1..], f),
            match f(k) case Replace(l) => [(k, l)] case _ => []);
    }
  }

  lemma {:induction false} OmittedSnoc(ks: seq<Key>, k: Key, j: Job)
    ensures Omitted(ks + [k], j) ==
            Omitted(ks, j) + (if PassOne(k, j).Row? && PassOne(k, j).drop then [k] else [])
  {
    hide PassOne;
    if ks == [] {
      assert ([k])[1..] == [];
      assert ks + [k] == [k];
    } else {
      assert (ks + [k])[1..] == ks[1..] + [k];
      OmittedSnoc(ks[1..], k, j);
      Assoc(if PassOne(ks[0], j).Row? && PassOne(ks[0], j).drop then [ks[0]] else [], Omitted(ks[1..], j),
            if PassOne(k, j).Row? && PassOne(k, j).drop then [k] else []);
    }
  }

  lemma {:induction false} RejectedSnoc(ks: seq<Key>, k: Key, j: Job)
    requires FirstRejected(ks, j).None?
    ensures FirstRejected(ks + [k], j) == if PassOne(k, j).Rejected? then Some(k) else None
  {
    hide PassOne;
    if ks == [] {
      assert ks + [k] == [k];
    } else {
      assert (ks + [k])[1..] == ks[1..] + [k];
      RejectedSnoc(ks[1..], k, j);
    }
  }

  lemma {:induction false} RejectedPrefix(ks: seq<Key>, rest: seq<Key>, j: Job)
    requires FirstRejected(ks, j).Some?
    ensures FirstRejected(ks + rest, j) == FirstRejected(ks, j)
  {
    hide PassOne;
    assert (ks + rest)[1..] == ks[1..] + rest;
    if !PassOne(ks[0], j).Rejected? {
      RejectedPrefix(ks[1..], rest, j);
    }
  }

  // ---- pass 1 -------------------------------------------------------------------------------

  /** The first match of a key's line pattern. */
  method FindRaw(k: Key, ls: seq<string>) returns (raw: Option<string>)
    ensures raw == ConfRaw(k, ls)
  {
    hide Matches, Capture;
    var i := 0;
    while i < |ls|
      invariant 0 <= i <= |ls|
      invariant ConfRaw(k, ls) == ConfRaw(k, ls[i..])
    {
      assert ls[i..][1..] == ls[i + 1..];
      if Matches(k, ls[i]) {
        return Some(Capture(k, ls[i]));
      }
      i := i + 1;
    }
    return None;
  }

  /** The resolve loop; `rejected` is the must-match field that stopped it. */
  method ResolveFields(j: Job)
    returns (rejected: Option<Key>, effective: map<Key, FieldValue>, rewrites: Plan, inserts: Plan, dropped: seq<Key>)
    ensures rejected == FirstRejected(Table, j)
    ensures rejected.None? ==>
              && (forall k :: Lookup(effective, k) == Eff(PassOne(k, j)))
              && rewrites == RewriteList(Table, PassActs(j))
              && inserts == InsertList(Table, PassActs(j))
              && dropped == Omitted(Table, j)
  {
    hide PassOne, PassAct, Table, RewriteList, InsertList, Omitted, FirstRejected, RowOk, Eff;
    var f := PassActs(j);
    assert Table[..0] == [];
    EmptyLists(j);
    effective, rewrites, inserts, dropped := map[], [], [], [];
    var n := 0;
    while n < |Table|
      invariant 0 <= n <= |Table|
      invariant FirstRejected(Table[..n], j).None?
      invariant forall k :: k in effective ==> k in Table[..n]
      invariant forall k :: k in Table[..n] ==> Lookup(effective, k) == Eff(PassOne(k, j))
      invariant rewrites == RewriteList(Table[..n], f)
      invariant inserts == InsertList(Table[..n], f)
      invariant dropped == Omitted(Table[..n], j)
    {
      var k := Table[n];
      assert Table[..n + 1] == Table[..n] + [k];
      RewriteSnoc(Table[..n], k, f);
      InsertSnoc(Table[..n], k, f);
      OmittedSnoc(Table[..n], k, j);
      RejectedSnoc(Table[..n], k, j);
      NotYet(n);
      var row := ResolveField(k, j);
      RowAct(k, j);
      EffOfRow(k, j);
      match row
      case Rejected =>
        assert Table == Table[..n + 1] + Table[n + 1..];
        RejectedPrefix(Table[..n + 1], Table[n + 1..], j);
        return Some(k), effective, rewrites, inserts, dropped;
      case Row(act, eff, drop) =>
        match act {
          case Keep =>
          case Replace(line) => rewrites := rewrites + [(k, line)];
          case Insert(line) => inserts := inserts + [(k, line)];
        }
        if drop {
          dropped := dropped + [k];
        }
        if eff.Some? {
          effective := effective[k := eff.value];
        }
      n := n + 1;
    }
    assert Table[..n] == Table;
    forall k ensures k in Table[..n] {
      TableComplete(k);
    }
    rejected := None;
  }

  lemma {:induction false} EmptyLists(j: Job)
    ensures RewriteList([], PassActs(j)) == [] && InsertList([], PassActs(j)) == []
    ensures Omitted([], j) == [] && FirstRejected([], j).None?
  {
  }

  lemma {:induction false} EffOfRow(k: Key, j: Job)
    ensures PassOne(k, j).Row? ==> Eff(PassOne(k, j)) == PassOne(k, j).eff
  {
  }

  lemma {:induction false} NotYet(n: nat)
    requires n < |Table|
    ensures Table[n] !in Table[..n]
  {
    TableDistinct();
  }

  lemma {:induction false} RowAct(k: Key, j: Job)
    ensures PassAct(k, j) == if PassOne(k, j).Row? then PassOne(k, j).act else Keep
  {
  }

  /** One row: epoch value, else conf line, else default. */
  method ResolveField(k: Key, j: Job) returns (row: Row)
    ensures row == PassOne(k, j)
  {
    hide Valid, Render, ParseConf, ConfRaw, EpochOf;
    var raw := FindRaw(k, j.conf);
    var confVal := if raw.Some? then ParseConf(k, raw.value) else None;
    var epoch := EpochOf(k, j.params);
    if epoch.Some? {
      if Valid(k, epoch.value) {
        var line := Render(k, epoch.value);
        return Row(if raw.Some? then Replace(line) else Insert(line), epoch, false);
      } else if ClassOf(k).MustMatch? {
        return Rejected;
      } else {
        return Row(Keep, confVal, true);
      }
    } else if raw.Some? {
      return Row(Keep, confVal, false);
    } else {
      var def := DefaultOf(k, j.defaults);
      if def.Some? && Valid(k, def.value) {
        return Row(Insert(Render(k, def.value)), def, false);
      }
      return Row(Keep, None, false);
    }
  }

  // ---- the checks -------------------------------------------------------------------------

  /** The pairwise H check, two nested loops. */
  method FindOverlap(h: seq<Option<(int, int)>>) returns (r: Option<(nat, nat)>)
    requires |h| == 4
    ensures r == FirstOverlap(h, 0, 1)
  {
    hide Overlap;
    var i := 0;
    while i < 3
      invariant 0 <= i <= 3
      invariant FirstOverlap(h, 0, 1) == if i < 3 then FirstOverlap(h, i, i + 1) else None
    {
      var k := i + 1;
      while k < 4
        invariant i < k <= 4
        invariant FirstOverlap(h, 0, 1) == FirstOverlap(h, i, k)
      {
        if Overlap(h[i], h[k]) {
          return Some((i, k));
        }
        k := k + 1;
      }
      i := i + 1;
    }
    return None;
  }

  function WireOfMap(effective: map<Key, FieldValue>): (w: Wire)
    ensures |w.h| == 4
  {
    Wire(SNum(Lookup(effective, S1)), SNum(Lookup(effective, S2)),
         SNum(Lookup(effective, S3)), SNum(Lookup(effective, S4)),
         [HBounds(Lookup(effective, H1)), HBounds(Lookup(effective, H2)),
          HBounds(Lookup(effective, H3)), HBounds(Lookup(effective, H4))],
         KeyActive(Lookup(effective, HeaderProtectionKey)),
         Pair(Lookup(effective, Jmin), Lookup(effective, Jmax)))
  }

  /** The must-match checks over the resolved set. */
  method CheckResolved(effective: map<Key, FieldValue>) returns (e: Option<MergeError>)
    ensures e == CheckMustMatch(WireOfMap(effective))
  {
    hide Lookup, SNum, HBounds, KeyActive, FirstOverlap;
    var w := WireOfMap(effective);
    if Wrap64(w.s1 + 56) == w.s2 {
      return Some(ReservedSizes);
    }
    var overlap := FindOverlap(w.h);
    if overlap.Some? {
      return Some(HOverlap(HKeys[overlap.value.1], HKeys[overlap.value.0]));
    }
    if w.hpkActive && (w.s1 < 12 || w.s2 < 12 || w.s3 < 12 || w.s4 < 12) {
      return Some(HpkNeedsPadding);
    }
    return None;
  }

  // ---- softening ------------------------------------------------------------------------------

  function Retain(plan: Plan, k: Key): Plan {
    if plan == [] then []
    else (if plan[0].0 != k then [plan[0]] else []) + Retain(plan[1..], k)
  }

  lemma {:induction false} RetainInserts(ks: seq<Key>, f: Key -> Action, g: Key -> Action, k: Key)
    requires forall m :: g(m) == if m == k then Keep else f(m)
    ensures Retain(InsertList(ks, f), k) == InsertList(ks, g)
  {
    if ks != [] {
      RetainInserts(ks[1..], f, g, k);
      var tail := InsertList(ks[1..], f);
      if f(ks[0]).Insert? {
        assert ([(ks[0], f(ks[0]).line)] + tail)[1..] == tail;
      } else {
        assert InsertList(ks, f) == tail;
      }
    }
  }

  lemma {:induction false} RetainRewrites(ks: seq<Key>, f: Key -> Action, g: Key -> Action, k: Key)
    requires forall m :: g(m) == if m == k then Keep else f(m)
    ensures Retain(RewriteList(ks, f), k) == RewriteList(ks, g)
  {
    if ks != [] {
      RetainRewrites(ks[1..], f, g, k);
      var tail := RewriteList(ks[1..], f);
      if f(ks[0]).Replace? {
        assert ([(ks[0], f(ks[0]).line)] + tail)[1..] == tail;
      } else {
        assert RewriteList(ks, f) == tail;
      }
    }
  }

  lemma {:induction false} ListsAgree(ks: seq<Key>, f: Key -> Action, g: Key -> Action)
    requires forall m :: f(m) == g(m)
    ensures InsertList(ks, f) == InsertList(ks, g) && RewriteList(ks, f) == RewriteList(ks, g)
  {
    if ks != [] {
      ListsAgree(ks[1..], f, g);
    }
  }

  const JunkKeys: seq<Key> := [Jmin, Jmax]

  /** The write decisions once the first `n` members of the pair have been considered. */
  function SoftAct(k: Key, j: Job, n: nat): Action
    requires n <= 2
  {
    if k in JunkKeys[..n] && EpochOf(k, j.params).Some? then Keep else PassAct(k, j)
  }

  function SoftActs(j: Job, n: nat): Key -> Action
    requires n <= 2
  {
    k => SoftAct(k, j, n)
  }

  function SoftValue(k: Key, j: Job, n: nat): Option<FieldValue>
    requires n <= 2
  {
    if k in JunkKeys[..n] && EpochOf(k, j.params).Some? then ConfValue(k, j.conf) else Eff(PassOne(k, j))
  }

  lemma {:induction false} SoftStep(j: Job, n: nat)
    requires n < 2
    ensures forall m :: SoftAct(m, j, n + 1) ==
              if m == JunkKeys[n] && EpochOf(m, j.params).Some? then Keep else SoftAct(m, j, n)
    ensures forall m :: SoftValue(m, j, n + 1) ==
              if m == JunkKeys[n] && EpochOf(m, j.params).Some? then ConfValue(m, j.conf) else SoftValue(m, j, n)
  {
    hide PassOne, PassAct, EpochOf, ConfValue;
    assert JunkKeys[..n + 1] == JunkKeys[..n] + [JunkKeys[n]];
  }

  lemma {:induction false} SoftEnd(j: Job, k: Key)
    ensures Softens(j) ==> SoftAct(k, j, 2) == Act(k, j) && SoftValue(k, j, 2) == Resolved(k, j)
    ensures !Softens(j) ==> SoftAct(k, j, 0) == Act(k, j) && SoftValue(k, j, 0) == Resolved(k, j)
  {
    hide PassOne, Softens, EpochOf, ConfValue, RowOk, Valid, Render;
    assert JunkKeys[..2] == [Jmin, Jmax];
    assert JunkKeys[..0] == [];
  }

  function SoftDrops(j: Job, n: nat): seq<Key>
    requires n <= 2
  {
    if n == 0 then []
    else SoftDrops(j, n - 1) + (if EpochOf(JunkKeys[n - 1], j.params).Some? then [JunkKeys[n - 1]] else [])
  }

  /** Take back the epoch-sourced members of the inverted pair and read them from the conf. */
  method Soften(j: Job, eff0: map<Key, FieldValue>, rewrites0: Plan, inserts0: Plan, dropped0: seq<Key>)
    returns (effective: map<Key, FieldValue>, rewrites: Plan, inserts: Plan, dropped: seq<Key>)
    requires forall k :: Lookup(eff0, k) == SoftValue(k, j, 0)
    requires rewrites0 == RewriteList(Table, SoftActs(j, 0))
    requires inserts0 == InsertList(Table, SoftActs(j, 0))
    ensures forall k :: Lookup(effective, k) == SoftValue(k, j, 2)
    ensures rewrites == RewriteList(Table, SoftActs(j, 2))
    ensures inserts == InsertList(Table, SoftActs(j, 2))
    ensures dropped == dropped0 + SoftDrops(j, 2)
  {
    hide SoftAct, SoftValue, ConfRaw, EpochOf, Table, RewriteList, InsertList, Retain, ParseConf;
    effective, rewrites, inserts, dropped := eff0, rewrites0, inserts0, dropped0;
    var n := 0;
    while n < 2
      invariant 0 <= n <= 2
      invariant forall k :: Lookup(effective, k) == SoftValue(k, j, n)
      invariant rewrites == RewriteList(Table, SoftActs(j, n))
      invariant inserts == InsertList(Table, SoftActs(j, n))
      invariant dropped == dropped0 + SoftDrops(j, n)
    {
      var f := JunkKeys[n];
      ghost var before := effective;
      SoftStep(j, n);
      if EpochOf(f, j.params).Some? {
        RetainRewrites(Table, SoftActs(j, n), SoftActs(j, n + 1), f);
        RetainInserts(Table, SoftActs(j, n), SoftActs(j, n + 1), f);
        rewrites := Retain(rewrites, f);
        inserts := Retain(inserts, f);
        dropped := dropped + [f];
        var raw := FindRaw(f, j.conf);
        var v := if raw.Some? then ParseConf(f, raw.value) else None;
        assert v == ConfValue(f, j.conf);
        if v.Some? {
          effective := effective[f := v.value];
        } else {
          effective := effective - {f};
        }
      } else {
        ListsAgree(Table, SoftActs(j, n), SoftActs(j, n + 1));
      }
      assert forall k :: Lookup(effective, k) == SoftValue(k, j, n + 1) by {
        forall k ensures Lookup(effective, k) == SoftValue(k, j, n + 1) {
          assert Lookup(before, k) == SoftValue(k, j, n);
        }
      }
      n := n + 1;
    }
  }

  // ---- pass 2 -----------------------------------------------------------------------------------

  /** The replacements one after the other, each over every line. */
  function ApplyPlan(line: string, plan: Plan): string {
    if plan == [] then line
    else
      var prev := ApplyPlan(line, plan[..|plan| - 1]);
      if Matches(plan[|plan| - 1].0, prev) then plan[|plan| - 1].1 else prev
  }

  /** Rewriting key by key is rewriting all at once: no replacement creates a line that
      another one would touch. */
  lemma {:induction false} ApplyRewrites(line: string, ks: seq<Key>, f: Key -> Action)
    requires forall k :: f(k).Replace? ==> Owner(f(k).line) == Some(k)
    ensures ApplyPlan(line, RewriteList(ks, f)) ==
            match Owner(line)
            case Some(k) => if k in ks && f(k).Replace? then f(k).line else line
            case None => line
  {
    hide Matches, Owner;
    if ks != [] {
      var init, k := ks[..|ks| - 1], ks[|ks| - 1];
      assert ks == init + [k];
      RewriteSnoc(init, k, f);
      ApplyRewrites(line, init, f);
      var prev := ApplyPlan(line, RewriteList(init, f));
      OwnerMatches(k, prev);
      OwnerMatches(k, line);
      if f(k).Replace? {
        var plan := RewriteList(init, f) + [(k, f(k).line)];
        assert plan[..|plan| - 1] == RewriteList(init, f);
        assert RewriteList(ks, f) == plan;
      } else {
        assert RewriteList(ks, f) == RewriteList(init, f);
      }
    }
  }

  lemma {:induction false} OwnerMatches(k: Key, line: string)
    ensures Matches(k, line) <==> Owner(line) == Some(k)
  {
  }

  /** `replace_all` for one key. */
  method ReplaceLines(k: Key, line: string, ls: seq<string>) returns (r: seq<string>)
    ensures |r| == |ls|
    ensures forall i :: 0 <= i < |ls| ==> r[i] == if Matches(k, ls[i]) then line else ls[i]
  {
    hide Matches;
    r := [];
    var i := 0;
    while i < |ls|
      invariant 0 <= i <= |ls| && |r| == i
      invariant forall m :: 0 <= m < i ==> r[m] == if Matches(k, ls[m]) then line else ls[m]
    {
      r := r + [if Matches(k, ls[i]) then line else ls[i]];
      i := i + 1;
    }
  }

  method RewriteLines(ls: seq<string>, rewrites: Plan) returns (r: seq<string>)
    ensures |r| == |ls|
    ensures forall i :: 0 <= i < |ls| ==> r[i] == ApplyPlan(ls[i], rewrites)
  {
    hide Matches;
    r := ls;
    var n := 0;
    while n < |rewrites|
      invariant 0 <= n <= |rewrites|
      invariant |r| == |ls|
      invariant forall i :: 0 <= i < |ls| ==> r[i] == ApplyPlan(ls[i], rewrites[..n])
    {
      assert rewrites[..n + 1][..n] == rewrites[..n];
      r := ReplaceLines(rewrites[n].0, rewrites[n].1, r);
      n := n + 1;
    }
    assert rewrites[..n] == rewrites;
  }

  function SecondOf(plan: Plan): (ls: seq<string>)
    ensures |ls| == |plan|
  {
    if plan == [] then [] else [plan[0].1] + SecondOf(plan[1..])
  }

  lemma {:induction false} InsertedLines(ks: seq<Key>, j: Job, f: Key -> Action)
    requires forall k :: f(k) == Act(k, j)
    ensures SecondOf(InsertList(ks, f)) == InsertLines(ks, j)
  {
    hide Act;
    if ks != [] {
      InsertedLines(ks[1..], j, f);
      var tail := InsertList(ks[1..], f);
      if f(ks[0]).Insert? {
        assert ([(ks[0], f(ks[0]).line)] + tail)[1..] == tail;
      } else {
        assert InsertList(ks, f) == tail;
      }
    }
  }

  /** The byte position at which the header line ends, and the splice at that position. */
  lemma {:induction false} SpliceAtHeader(ls: seq<string>, h: nat, block: seq<string>)
    requires h < |ls| && |block| >= 1
    ensures var end := |Join(ls[..h + 1], '\n')|;
            && end <= |Join(ls, '\n')|
            && Join(InsertAfter(ls, h, block), '\n') ==
               Join(ls, '\n')[..end] + "\n" + Join(block, '\n') + Join(ls, '\n')[end..]
  {
    hide Join;
    var pre, post := ls[..h + 1], ls[h + 1..];
    JoinAppend(pre, block, '\n');
    if post == [] {
      assert ls == pre;
      assert InsertAfter(ls, h, block) == pre + block;
    } else {
      assert ls == pre + post;
      JoinAppend(pre, post, '\n');
      JoinAppend(pre + block, post, '\n');
      var a, b, c := Join(pre, '\n'), Join(block, '\n'), Join(post, '\n');
      assert (a + ['\n'] + c)[..|a|] == a;
      assert (a + ['\n'] + c)[|a|..] == ['\n'] + c;
      assert (a + "\n" + b) + ['\n'] + c == a + "\n" + b + (['\n'] + c) by {
        Assoc(a + "\n" + b, ['\n'], c);
      }
    }
  }

  lemma {:induction false} WireOfEffective(j: Job, effective: map<Key, FieldValue>)
    requires forall k :: Lookup(effective, k) == Resolved(k, j)
    ensures WireOfMap(effective) == WireOf(j)
  {
    hide Lookup, Resolved;
  }

  /** Softening changes only the junk pair, so the must-match checks may run before it. */
  lemma {:induction false} EarlyCheck(j: Job, effective: map<Key, FieldValue>)
    requires forall k :: Lookup(effective, k) == Eff(PassOne(k, j))
    ensures CheckMustMatch(WireOfMap(effective)) == CheckMustMatch(WireOf(j))
    ensures Pair(Lookup(effective, Jmin), Lookup(effective, Jmax)) == Pair(Eff(PassOne(Jmin, j)), Eff(PassOne(Jmax, j)))
  {
    hide Lookup, PassOne, CheckMustMatch, Softens, Resolved;
    forall k | k != Jmin && k != Jmax ensures Lookup(effective, k) == Resolved(k, j) {
      UnsoftenedValue(k, j);
    }
    assert WireOfMap(effective) == WireOf(j).(junk := WireOfMap(effective).junk);
    JunkUnchecked(WireOf(j), WireOfMap(effective).junk);
  }

  lemma {:induction false} UnsoftenedValue(k: Key, j: Job)
    requires k != Jmin && k != Jmax
    ensures Resolved(k, j) == Eff(PassOne(k, j))
  {
    hide PassOne;
  }

  lemma {:induction false} SoftDropped(j: Job)
    ensures Dropped(j) == Omitted(Table, j) + (if Softens(j) then SoftDrops(j, 2) else [])
  {
    hide Omitted, Table, EpochOf, PassOne;
    assert SoftDrops(j, 0) == [];
    assert SoftDrops(j, 1) == SoftDrops(j, 0) + (if EpochOf(Jmin, j.params).Some? then [Jmin] else []);
    assert SoftDrops(j, 2) == SoftDrops(j, 1) + (if EpochOf(Jmax, j.params).Some? then [Jmax] else []);
  }

  lemma {:induction false} PlanRewrites(j: Job, r: seq<string>)
    requires |r| == |j.conf|
    requires forall i :: 0 <= i < |r| ==> r[i] == ApplyPlan(j.conf[i], RewriteList(Table, ActsOf(j)))
    ensures r == Rewritten(j.conf, j)
  {
    hide Owner, Act, Table, RewriteList, ApplyPlan;
    forall k | ActsOf(j)(k).Replace? ensures Owner(ActsOf(j)(k).line) == Some(k) {
      WrittenOwner(k, j);
    }
    forall i | 0 <= i < |r| ensures r[i] == Rewrite(j.conf[i], j) {
      ApplyRewrites(j.conf[i], Table, ActsOf(j));
      if Owner(j.conf[i]).Some? {
        TableComplete(Owner(j.conf[i]).value);
      }
    }
  }

  function ActsOf(j: Job): Key -> Action {
    k => Act(k, j)
  }

  lemma {:induction false} HeaderKept(j: Job)
    ensures HeaderIndex(Rewritten(j.conf, j)) == HeaderIndex(j.conf)
  {
    hide Rewrite, Owner;
    var r := Rewritten(j.conf, j);
    forall i | 0 <= i < |r| ensures IsHeader(r[i]) <==> IsHeader(j.conf[i]) {
      RewriteHeader(j.conf[i], j);
    }
  }

  lemma {:induction false} RewriteHeader(line: string, j: Job)
    ensures IsHeader(Rewrite(line, j)) <==> IsHeader(line)
  {
    hide Owner, Act;
    var o := Owner(line);
    if o.Some? && Act(o.value, j).Replace? {
      WrittenOwner(o.value, j);
      OwnedNotHeader(line);
      OwnedNotHeader(Act(o.value, j).line);
    }
  }

  lemma {:induction false} OwnedNotHeader(line: string)
    ensures Owner(line).Some? ==> !IsHeader(line)
  {
    if IsHeader(line) {
      HeaderUnowned(line);
    }
  }

  /** The splice: replacements, then the block at the end of the header line. */
  method Splice(j: Job, rewrites: Plan, inserts: Plan) returns (text: Option<string>)
    requires |j.conf| >= 1
    requires rewrites == RewriteList(Table, ActsOf(j)) && inserts == InsertList(Table, ActsOf(j))
    ensures text.Some? <==> CanInsert(j)
    ensures text.Some? ==> |Spliced(j)| >= 1 && text.value == Join(Spliced(j), '\n')
  {
    hide Act, Table, RewriteList, InsertList, InsertLines, ApplyPlan, Rewrite, Join, Owner;
    var lines := RewriteLines(j.conf, rewrites);
    PlanRewrites(j, lines);
    InsertedLines(Table, j, ActsOf(j));
    HeaderKept(j);
    var block := SecondOf(inserts);
    var result := Join(lines, '\n');
    if block == [] {
      return Some(result);
    }
    var h := HeaderIndex(lines);
    if h == |lines| {
      return None;
    }
    SpliceAtHeader(lines, h, block);
    var headerEnd := |Join(lines[..h + 1], '\n')|;
    return Some(result[..headerEnd] + "\n" + Join(block, '\n') + result[headerEnd..]);
  }

  /** `merge_obfuscation_params_reporting`, pass by pass. */
  method MergeReporting(conf: string, params: Option<AwgParams>, defaults: ClientDefaults) returns (r: MergeResult)
    ensures r == Merge(conf, params, defaults)
  {
    hide PassOne, PassAct, Act, Softens, Lookup, Resolved, SoftAct, SoftValue, Table, RewriteList, InsertList, Omitted,
      WireOf, CheckMustMatch, Spliced, CanInsert, Join, Split, FirstRejected, SoftDrops, Dropped;
    var j := Job(Split(conf, '\n'), params, defaults);
    var rejected, effective, rewrites, inserts, dropped := ResolveFields(j);
    if rejected.Some? {
      return Err(FieldRejected(rejected.value));
    }
    EarlyCheck(j, effective);
    var e := CheckResolved(effective);
    if e.Some? {
      return Err(e.value);
    }
    SoftStart(j, effective);
    SoftFinish(j);
    SoftDropped(j);
    if Inverted(Pair(Lookup(effective, Jmin), Lookup(effective, Jmax))) {
      effective, rewrites, inserts, dropped := Soften(j, effective, rewrites, inserts, dropped);
      WireOfEffective(j, effective);
      if Inverted(WireOfMap(effective).junk) {
        return Err(JunkInverted);
      }
    } else {
      WireOfEffective(j, effective);
    }
    var text := Splice(j, rewrites, inserts);
    if text.None? {
      return Err(NoInterface);
    }
    return Ok(text.value, dropped);
  }

  lemma {:induction false} SoftStart(j: Job, effective: map<Key, FieldValue>)
    ensures (forall k :: Lookup(effective, k) == Eff(PassOne(k, j))) ==>
              forall k :: Lookup(effective, k) == SoftValue(k, j, 0)
    ensures RewriteList(Table, PassActs(j)) == RewriteList(Table, SoftActs(j, 0))
    ensures InsertList(Table, PassActs(j)) == InsertList(Table, SoftActs(j, 0))
    ensures Softens(j) <==> Inverted(Pair(Eff(PassOne(Jmin, j)), Eff(PassOne(Jmax, j))))
  {
    hide PassOne, PassAct, Table, RewriteList, InsertList, Lookup;
    ListsAgree(Table, PassActs(j), SoftActs(j, 0));
  }

  lemma {:induction false} SoftFinish(j: Job)
    ensures var n := if Softens(j) then 2 else 0;
            && (forall k :: SoftValue(k, j, n) == Resolved(k, j))
            && RewriteList(Table, SoftActs(j, n)) == RewriteList(Table, ActsOf(j))
            && InsertList(Table, SoftActs(j, n)) == InsertList(Table, ActsOf(j))
  {
    hide PassOne, PassAct, Act, SoftAct, SoftValue, Resolved, Table, RewriteList, InsertList, Softens;
    var n := if Softens(j) then 2 else 0;
    forall k ensures SoftAct(k, j, n) == Act(k, j) && SoftValue(k, j, n) == Resolved(k, j) {
      SoftEnd(j, k);
    }
    ListsAgree(Table, SoftActs(j, n), ActsOf(j));
  }
}
