/**
 What a merge tells its caller and what it writes, in terms of the epoch's own fields and of
 literal lines: the list of dropped fields, and the line of every field.
 */
module MergeReport {
  import opened Common
  import opened Text
  import opened Params
  import opened FieldSpecs
  import opened ConfMerge
  import opened SpliceProofs
  import opened MergeStability
  import opened MergeFrame

  // ---- the dropped fields -----------------------------------------------------------------------

  /** The epoch carries a value for a client-side field that its validator refuses. */
  predicate Refused(k: Key, p: Option<AwgParams>) {
    ClassOf(k).ClientSide? && EpochOf(k, p).Some? && !Valid(k, EpochOf(k, p).value)
  }

  /** The value a junk bound would have by priority alone: a valid epoch value, the conf's line, the
      default of an absent key. */
  function Offered(k: Key, ls: seq<string>, p: Option<AwgParams>, d: ClientDefaults): Option<FieldValue> {
    var e, own := EpochOf(k, p), DefaultOf(k, d);
    if e.Some? && Valid(k, e.value) then e
    else if e.Some? || ConfRaw(k, ls).Some? then ConfValue(k, ls)
    else if own.Some? && Valid(k, own.value) then own
    else None
  }

  /** The two junk bounds on offer are in the wrong order. */
  predicate Clash(conf: string, p: Option<AwgParams>, d: ClientDefaults) {
    var ls := Split(conf, '\n');
    Inverted(Pair(Offered(Jmin, ls, p, d), Offered(Jmax, ls, p, d)))
  }

  /** The epoch's own members of a clashing pair. */
  function Surrendered(conf: string, p: Option<AwgParams>, d: ClientDefaults): seq<Key> {
    if !Clash(conf, p, d) then []
    else (if EpochOf(Jmin, p).Some? then [Jmin] else []) + (if EpochOf(Jmax, p).Some? then [Jmax] else [])
  }

  lemma {:induction false} OfferedIs(k: Key, j: Job)
    requires ClassOf(k).ClientSide?
    ensures PassOne(k, j).Row? && Eff(PassOne(k, j)) == Offered(k, j.conf, j.params, j.defaults)
    ensures PassOne(k, j).drop <==> Refused(k, j.params)
  {
    hide Valid, Render, ConfRaw, ConfValue, EpochOf;
    NoRaw(k, j.conf);
  }

  lemma NoRaw(k: Key, ls: seq<string>)
    ensures ConfRaw(k, ls).None? ==> ConfValue(k, ls).None?
  {
  }

  lemma {:induction false} OmittedAre(i: nat, j: Job)
    requires i <= |Table|
    ensures forall k :: k in Omitted(Table[i..], j) <==> Refused(k, j.params) && Rank(k) >= i
    ensures forall a, b :: 0 <= a < b < |Omitted(Table[i..], j)| ==>
              Rank(Omitted(Table[i..], j)[a]) < Rank(Omitted(Table[i..], j)[b])
    decreases |Table| - i
  {
    hide PassOne, Refused, Rank, Table;
    if i < |Table| {
      var k, rest := Table[i], Omitted(Table[i + 1..], j);
      assert Table[i..][1..] == Table[i + 1..];
      OmittedAre(i + 1, j);
      RankOfTable(i);
      DropIsRefusal(k, j);
      assert forall x :: Rank(x) == i ==> x == k;
      assert forall a :: 0 <= a < |rest| ==> rest[a] in rest;
    } else {
      assert Table[i..] == [];
    }
  }

  lemma {:induction false} DropIsRefusal(k: Key, j: Job)
    ensures PassOne(k, j).Row? && PassOne(k, j).drop <==> Refused(k, j.params)
  {
    hide Valid, Render, ConfRaw, ConfValue, EpochOf;
    if ClassOf(k).ClientSide? {
      OfferedIs(k, j);
    }
  }

  /** The report of every successful merge: the refused client-side fields, each once and in table
      order, then the epoch's members of a clashing pair. */
  lemma {:induction false} ReportIs(conf: string, p: Option<AwgParams>, d: ClientDefaults) returns (refused: seq<Key>)
    requires Merge(conf, p, d).Ok?
    ensures Merge(conf, p, d).dropped == refused + Surrendered(conf, p, d)
    ensures forall k :: k in refused <==> Refused(k, p)
    ensures forall a, b :: 0 <= a < b < |refused| ==> Rank(refused[a]) < Rank(refused[b])
  {
    hide Split, PassOne, WireOf, Check, CanInsert, Spliced, Refused, Rank, Offered, Table, Omitted;
    var j := JobOf(conf, p, d);
    refused := Omitted(Table, j);
    assert Table[0..] == Table;
    OmittedAre(0, j);
    OfferedIs(Jmin, j);
    OfferedIs(Jmax, j);
    assert Softens(j) <==> Clash(conf, p, d);
    Assoc(refused, if TakenBack(Jmin, j) then [Jmin] else [], if TakenBack(Jmax, j) then [Jmax] else []);
  }

  function Count(b: bool): nat {
    if b then 1 else 0
  }

  lemma {:induction false} OnceEach(ks: seq<Key>, k: Key)
    requires forall a, b :: 0 <= a < b < |ks| ==> Rank(ks[a]) < Rank(ks[b])
    ensures multiset(ks)[k] == Count(k in ks)
  {
    hide Rank;
    if ks != [] {
      var n := |ks| - 1;
      OnceEach(ks[..n], k);
      assert ks == ks[..n] + [ks[n]];
      assert ks[n] !in ks[..n];
    }
  }

  /** How often each field is reported: once if its epoch value was refused, and once more if it is the
      epoch's member of a clashing junk pair. */
  lemma {:induction false} ReportCounts(conf: string, p: Option<AwgParams>, d: ClientDefaults, k: Key)
    requires Merge(conf, p, d).Ok?
    ensures multiset(Merge(conf, p, d).dropped)[k] ==
            Count(Refused(k, p)) + Count((k == Jmin || k == Jmax) && EpochOf(k, p).Some? && Clash(conf, p, d))
    ensures p == None ==> Merge(conf, p, d).dropped == []
  {
    hide Merge, Clash, Rank, Refused, Surrendered;
    var refused := ReportIs(conf, p, d);
    OnceEach(refused, k);
    SurrenderedCounts(conf, p, d, k);
    if p == None {
      NothingRefused(refused);
    }
  }

  lemma SurrenderedCounts(conf: string, p: Option<AwgParams>, d: ClientDefaults, k: Key)
    ensures multiset(Surrendered(conf, p, d))[k] ==
            Count((k == Jmin || k == Jmax) && EpochOf(k, p).Some? && Clash(conf, p, d))
    ensures p == None ==> Surrendered(conf, p, d) == []
  {
    hide Clash;
  }

  lemma SomeMember(ks: seq<Key>)
    ensures ks == [] || exists k :: k in ks
  {
    assert ks == [] || ks[0] in ks;
  }

  lemma NothingRefused(ks: seq<Key>)
    requires forall k :: k in ks <==> Refused(k, None)
    ensures ks == []
  {
    hide Valid, ClassOf;
    SomeMember(ks);
  }

  // ---- literal lines ----------------------------------------------------------------------------

  /** The line assigns `name`, in the syntax of the conf. */
  predicate Sets(name: string, line: string) {
    && name <= line
    && var rest := SkipBlanks(line[|name|..]);
    && rest != [] && rest[0] == '='
  }

  /** The text assigns `name`, and every line that does so gives it `value` in the canonical form. */
  ghost predicate Assigns(text: string, name: string, value: string) {
    && (exists line :: line in Split(text, '\n') && Sets(name, line))
    && (forall line :: line in Split(text, '\n') && Sets(name, line) ==> line == name + " = " + value)
  }

  lemma {:induction false} SetsIsMatch(k: Key, line: string)
    ensures Sets(Name(k), line) <==> Owner(line) == Some(k)
  {
    hide Owner;
    assert Sets(Name(k), line) == Matches(k, line);
    assert Owner(line) == Some(k) <==> Matches(k, line);
  }

  lemma {:induction false} AllRepeated(text: string, k: Key, v: FieldValue, n: nat)
    requires n > 0 && Select(Split(text, '\n'), Some(k)) == Repeat(Render(k, v), n)
    ensures Assigns(text, Name(k), ShowValue(v))
  {
    hide Owner, Sets, Split, Name, ShowValue, Select;
    var ls := Split(text, '\n');
    var own := Select(ls, Some(k));
    SelectMember(ls, Some(k), own[0]);
    SetsIsMatch(k, own[0]);
    forall line | line in ls && Sets(Name(k), line)
      ensures line == Render(k, v)
    {
      SetsIsMatch(k, line);
      SelectHas(ls, line);
    }
  }

  /** A valid epoch value is what the text says, unless it is the member of a clashing pair. */
  lemma {:induction false} EpochWritten(conf: string, p: AwgParams, d: ClientDefaults, k: Key, v: FieldValue)
    requires Merge(conf, Some(p), d).Ok? && EpochMember(k, p) == Some(v) && Valid(k, v)
    requires k == Jmin || k == Jmax ==> !Clash(conf, Some(p), d)
    ensures Assigns(Merge(conf, Some(p), d).text, Name(k), ShowValue(v))
  {
    hide Merge, Split, Valid, EpochMember, Select, Assigns, Clash, PassOne, Name, ShowValue;
    var j := JobOf(conf, Some(p), d);
    if k == Jmin || k == Jmax {
      NoClash(conf, Some(p), d);
    }
    KeyOutcome(conf, Some(p), d, k);
    var before := Select(Split(conf, '\n'), Some(k));
    AllRepeated(Merge(conf, Some(p), d).text, k, v, if before == [] then 1 else |before|);
  }

  lemma {:induction false} NoClash(conf: string, p: Option<AwgParams>, d: ClientDefaults)
    ensures Softens(JobOf(conf, p, d)) <==> Clash(conf, p, d)
  {
    hide Split, PassOne, Offered;
    OfferedIs(Jmin, JobOf(conf, p, d));
    OfferedIs(Jmax, JobOf(conf, p, d));
  }

  /** A must-match value that the epoch carries is valid whenever the merge succeeds. */
  lemma {:induction false} MustMatchIsValid(conf: string, p: AwgParams, d: ClientDefaults, k: Key)
    requires Merge(conf, Some(p), d).Ok? && ClassOf(k).MustMatch? && EpochMember(k, p).Some?
    ensures Valid(k, EpochMember(k, p).value)
  {
    hide Merge, Valid, EpochMember, Render, ConfRaw, ConfValue;
    MergeResolves(conf, Some(p), d, k);
  }

  lemma {:induction false} MustMatchWritten(conf: string, p: AwgParams, d: ClientDefaults, k: Key)
    requires Merge(conf, Some(p), d).Ok? && ClassOf(k).MustMatch? && EpochMember(k, p).Some?
    ensures Assigns(Merge(conf, Some(p), d).text, Name(k), ShowValue(EpochMember(k, p).value))
  {
    hide Merge, Valid, EpochMember, Assigns, Name, ShowValue;
    MustMatchIsValid(conf, p, d, k);
    EpochWritten(conf, p, d, k, EpochMember(k, p).value);
  }

  /** A number, or the two ends of a range that has two. */
  function Spelled(h: IntOrRange): string {
    match h
    case Single(n) => Show(n)
    case Range(lo, hi) => if lo == hi then Show(lo) else Show(lo) + "-" + Show(hi)
  }

  predicate Given(s: Option<string>) {
    s.Some? && s.value != ""
  }

  /** Every size and every tag range of the epoch is in the text under its own name. */
  lemma {:induction false} WireLines(conf: string, p: AwgParams, d: ClientDefaults)
    requires Merge(conf, Some(p), d).Ok?
    ensures var t := Merge(conf, Some(p), d).text;
            && Assigns(t, "S1", Show(p.s1)) && Assigns(t, "S2", Show(p.s2)) && Assigns(t, "S4", Show(p.s4))
            && (p.s3.Some? ==> Assigns(t, "S3", Show(p.s3.value)))
            && Assigns(t, "H1", Spelled(p.h1)) && Assigns(t, "H2", Spelled(p.h2))
            && Assigns(t, "H3", Spelled(p.h3)) && Assigns(t, "H4", Spelled(p.h4))
  {
    hide Merge, Assigns, Show;
    MustMatchWritten(conf, p, d, S1);
    MustMatchWritten(conf, p, d, S2);
    MustMatchWritten(conf, p, d, S4);
    if p.s3.Some? {
      MustMatchWritten(conf, p, d, S3);
    }
    MustMatchWritten(conf, p, d, H1);
    MustMatchWritten(conf, p, d, H2);
    MustMatchWritten(conf, p, d, H3);
    MustMatchWritten(conf, p, d, H4);
  }

  function OnOff(b: bool): string {
    if b then "on" else "off"
  }

  /** So are its key and its two switches. */
  lemma {:induction false} SwitchLines(conf: string, p: AwgParams, d: ClientDefaults)
    requires Merge(conf, Some(p), d).Ok?
    ensures var t := Merge(conf, Some(p), d).text;
            && (Given(p.headerProtectionKey) ==> Assigns(t, "HeaderProtectionKey", p.headerProtectionKey.value))
            && (p.randomTrailers.Some? ==> Assigns(t, "RandomTrailers", OnOff(p.randomTrailers.value)))
            && (p.disableCookies.Some? ==> Assigns(t, "DisableCookies", OnOff(p.disableCookies.value)))
  {
    hide Merge, Assigns, Clash;
    if Given(p.headerProtectionKey) {
      MustMatchWritten(conf, p, d, HeaderProtectionKey);
    }
    if p.randomTrailers.Some? {
      MustMatchWritten(conf, p, d, RandomTrailers);
    }
    if p.disableCookies.Some? {
      EpochWritten(conf, p, d, DisableCookies, Flag(p.disableCookies.value));
    }
  }

  lemma {:induction false} TagWritten(conf: string, p: AwgParams, d: ClientDefaults, k: Key, s: Option<string>)
    requires Merge(conf, Some(p), d).Ok? && EpochMember(k, p) == NonEmpty(s)
    requires k in {I1, I2, I3, I4, I5}
    ensures Given(s) && ITagOk(s.value) ==> Assigns(Merge(conf, Some(p), d).text, Name(k), s.value)
  {
    hide Merge, Assigns, ITagOk, Clash, EpochMember, Name;
    if Given(s) && ITagOk(s.value) {
      EpochWritten(conf, p, d, k, Str(s.value));
    }
  }

  /** So are its tags, where they pass the tag validator. */
  lemma {:induction false} TagLines(conf: string, p: AwgParams, d: ClientDefaults)
    requires Merge(conf, Some(p), d).Ok?
    ensures var t := Merge(conf, Some(p), d).text;
            && (Given(p.i1) && ITagOk(p.i1.value) ==> Assigns(t, "I1", p.i1.value))
            && (Given(p.i2) && ITagOk(p.i2.value) ==> Assigns(t, "I2", p.i2.value))
            && (Given(p.i3) && ITagOk(p.i3.value) ==> Assigns(t, "I3", p.i3.value))
            && (Given(p.i4) && ITagOk(p.i4.value) ==> Assigns(t, "I4", p.i4.value))
            && (Given(p.i5) && ITagOk(p.i5.value) ==> Assigns(t, "I5", p.i5.value))
  {
    hide Merge, Assigns, ITagOk, KindOf;
    TagWritten(conf, p, d, I1, p.i1);
    TagWritten(conf, p, d, I2, p.i2);
    TagWritten(conf, p, d, I3, p.i3);
    TagWritten(conf, p, d, I4, p.i4);
    TagWritten(conf, p, d, I5, p.i5);
  }

  /** A range string that the epoch gives and the range validator accepts. */
  predicate GoodRange(s: Option<string>) {
    Given(s) && RangeStringOk(s.value)
  }

  lemma {:induction false} RangeWritten(conf: string, p: AwgParams, d: ClientDefaults, k: Key, s: Option<string>)
    requires Merge(conf, Some(p), d).Ok? && EpochMember(k, p) == NonEmpty(s)
    requires k in {ContentPaddingAddition, RekeyAfterTime, RekeyTimeout, RejectAfterTime, KeepaliveTimeout,
                   MaxHandshakeAttempts}
    ensures GoodRange(s) ==> Assigns(Merge(conf, Some(p), d).text, Name(k), s.value)
  {
    hide Merge, Assigns, RangeStringOk, Clash, EpochMember, Name;
    if GoodRange(s) {
      EpochWritten(conf, p, d, k, Str(s.value));
    }
  }

  /** So are its range strings, where they pass the range validator. */
  lemma {:induction false} RangeLines(conf: string, p: AwgParams, d: ClientDefaults)
    requires Merge(conf, Some(p), d).Ok?
    ensures var t := Merge(conf, Some(p), d).text;
            && (GoodRange(p.contentPaddingAddition) ==>
                  Assigns(t, "ContentPaddingAddition", p.contentPaddingAddition.value))
            && (GoodRange(p.rekeyAfterTime) ==> Assigns(t, "RekeyAfterTime", p.rekeyAfterTime.value))
            && (GoodRange(p.rekeyTimeout) ==> Assigns(t, "RekeyTimeout", p.rekeyTimeout.value))
            && (GoodRange(p.rejectAfterTime) ==> Assigns(t, "RejectAfterTime", p.rejectAfterTime.value))
            && (GoodRange(p.keepaliveTimeout) ==> Assigns(t, "KeepaliveTimeout", p.keepaliveTimeout.value))
            && (GoodRange(p.maxHandshakeAttempts) ==>
                  Assigns(t, "MaxHandshakeAttempts", p.maxHandshakeAttempts.value))
  {
    hide Merge, Assigns, GoodRange, KindOf;
    RangeWritten(conf, p, d, ContentPaddingAddition, p.contentPaddingAddition);
    RangeWritten(conf, p, d, RekeyAfterTime, p.rekeyAfterTime);
    RangeWritten(conf, p, d, RekeyTimeout, p.rekeyTimeout);
    RangeWritten(conf, p, d, RejectAfterTime, p.rejectAfterTime);
    RangeWritten(conf, p, d, KeepaliveTimeout, p.keepaliveTimeout);
    RangeWritten(conf, p, d, MaxHandshakeAttempts, p.maxHandshakeAttempts);
  }

  predicate GoodJunk(n: Option<int>) {
    n.Some? && 0 <= n.value <= 4294967295
  }

  /** So are its junk counts, the two bounds as long as they do not clash. */
  lemma {:induction false} JunkLines(conf: string, p: AwgParams, d: ClientDefaults)
    requires Merge(conf, Some(p), d).Ok?
    ensures var t := Merge(conf, Some(p), d).text;
            && (GoodJunk(p.jc) ==> Assigns(t, "Jc", Show(p.jc.value)))
            && (GoodJunk(p.jmin) && !Clash(conf, Some(p), d) ==> Assigns(t, "Jmin", Show(p.jmin.value)))
            && (GoodJunk(p.jmax) && !Clash(conf, Some(p), d) ==> Assigns(t, "Jmax", Show(p.jmax.value)))
  {
    hide Merge, Assigns, Clash, Show;
    if GoodJunk(p.jc) {
      EpochWritten(conf, p, d, Jc, Int(p.jc.value));
    }
    if GoodJunk(p.jmin) && !Clash(conf, Some(p), d) {
      EpochWritten(conf, p, d, Jmin, Int(p.jmin.value));
    }
    if GoodJunk(p.jmax) && !Clash(conf, Some(p), d) {
      EpochWritten(conf, p, d, Jmax, Int(p.jmax.value));
    }
  }

  ghost predicate Lacks(conf: string, name: string) {
    forall line :: line in Split(conf, '\n') ==> !Sets(name, line)
  }

  lemma {:induction false} DefaultWritten(conf: string, d: ClientDefaults, k: Key, v: FieldValue)
    requires Merge(conf, None, d).Ok? && DefaultOf(k, d) == Some(v) && Valid(k, v) && Lacks(conf, Name(k))
    ensures Assigns(Merge(conf, None, d).text, Name(k), ShowValue(v))
  {
    hide Merge, Split, Valid, Select, Assigns, Name, ShowValue, Sets, Owner;
    KeyOutcome(conf, None, d, k);
    var ls := Split(conf, '\n');
    var before := Select(ls, Some(k));
    if before != [] {
      SelectMember(ls, Some(k), before[0]);
      SetsIsMatch(k, before[0]);
    }
    AllRepeated(Merge(conf, None, d).text, k, v, 1);
  }

  /** A top-up writes each default under its own name where the conf has no line for it. */
  lemma {:induction false} DefaultLines(conf: string, d: ClientDefaults)
    requires Merge(conf, None, d).Ok? && DefaultsPass(d)
    ensures var t := Merge(conf, None, d).text;
            && (Lacks(conf, "Jc") ==> Assigns(t, "Jc", Show(d.jc)))
            && (Lacks(conf, "Jmin") ==> Assigns(t, "Jmin", Show(d.jmin)))
            && (Lacks(conf, "Jmax") ==> Assigns(t, "Jmax", Show(d.jmax)))
            && (Lacks(conf, "I1") ==> Assigns(t, "I1", d.i1))
            && (Lacks(conf, "ContentPaddingAddition") ==>
                  Assigns(t, "ContentPaddingAddition", d.contentPaddingAddition))
  {
    hide Merge, Assigns, Lacks, Show, Valid;
    if Lacks(conf, "Jc") {
      DefaultWritten(conf, d, Jc, Int(d.jc));
    }
    if Lacks(conf, "Jmin") {
      DefaultWritten(conf, d, Jmin, Int(d.jmin));
    }
    if Lacks(conf, "Jmax") {
      DefaultWritten(conf, d, Jmax, Int(d.jmax));
    }
    if Lacks(conf, "I1") {
      DefaultWritten(conf, d, I1, Str(d.i1));
    }
    if Lacks(conf, "ContentPaddingAddition") {
      DefaultWritten(conf, d, ContentPaddingAddition, Str(d.contentPaddingAddition));
    }
  }
}
