/**
 The epochs that are never blocked by what the conf on a host happens to contain.
 */
module EpochAcceptance {
  import opened Common
  import opened Text
  import opened Params
  import opened FieldSpecs
  import opened ConfMerge
  import opened MergeTheorems
  import opened Defaults
  import opened Agent
  import opened AgentInvariants
  import opened AgentTheorems
  import opened ConfWitnesses

  function HOf(p: AwgParams): seq<Option<(int, int)>> {
    [HBounds(Some(FromIntOrRange(p.h1))), HBounds(Some(FromIntOrRange(p.h2))),
     HBounds(Some(FromIntOrRange(p.h3))), HBounds(Some(FromIntOrRange(p.h4)))]
  }

  ghost predicate MustMatchValid(p: AwgParams) {
    forall k :: ClassOf(k).MustMatch? && EpochMember(k, p).Some? ==> Valid(k, EpochMember(k, p).value)
  }

  /** Its own header key is inactive, or all its S values are large enough for any key. */
  predicate PaddingSettled(p: AwgParams) {
    || (p.headerProtectionKey.Some? && p.headerProtectionKey.value != "" && !HpkIsActive(p.headerProtectionKey.value))
    || (p.s3.Some? && p.s1 >= 12 && p.s2 >= 12 && p.s3.value >= 12 && p.s4 >= 12)
  }

  predicate JunkOrdered(p: AwgParams) {
    && p.jmin.Some? && p.jmax.Some?
    && JunkValueOk(p.jmin.value) && JunkValueOk(p.jmax.value)
    && p.jmin.value <= p.jmax.value
  }

  /** What an epoch can promise about itself. Its other client-side fields are arbitrary. */
  ghost predicate SelfConsistent(p: AwgParams) {
    && MustMatchValid(p)
    && p.s1 + 56 != p.s2
    && (forall a, b :: 0 <= a < b < 4 ==> !Overlap(HOf(p)[a], HOf(p)[b]))
    && PaddingSettled(p)
    && JunkOrdered(p)
  }

  lemma {:induction false} RowOfEpoch(k: Key, j: Job, p: AwgParams)
    requires j.params == Some(p) && EpochMember(k, p).Some? && Valid(k, EpochMember(k, p).value)
    ensures PassOne(k, j).Row? && Eff(PassOne(k, j)) == EpochMember(k, p)
  {
    hide Valid, ConfRaw, ConfValue, Render;
  }

  lemma {:induction false} NoRejection(k: Key, j: Job, p: AwgParams)
    requires j.params == Some(p) && MustMatchValid(p)
    ensures PassOne(k, j).Row?
  {
    hide Valid, ConfRaw, ConfValue, Render;
  }

  lemma {:induction false} NotSoftened(j: Job, p: AwgParams)
    requires j.params == Some(p) && JunkOrdered(p)
    ensures !Softens(j)
  {
    hide ConfRaw, ConfValue, Render, PassOne;
    RowOfEpoch(Jmin, j, p);
    RowOfEpoch(Jmax, j, p);
  }

  lemma {:induction false} ResolvedEpoch(k: Key, j: Job, p: AwgParams)
    requires j.params == Some(p) && JunkOrdered(p)
    requires EpochMember(k, p).Some? && Valid(k, EpochMember(k, p).value)
    ensures Resolved(k, j) == EpochMember(k, p)
  {
    hide Valid, PassOne, Softens, JunkOrdered, EpochMember;
    NotSoftened(j, p);
    RowOfEpoch(k, j, p);
  }

  /** The checks see the epoch's own values, but for S3 and the key, which it may leave to the conf. */
  lemma {:induction false} WireOfEpoch(j: Job, p: AwgParams)
    requires j.params == Some(p) && MustMatchValid(p) && JunkOrdered(p)
    ensures var w := WireOf(j);
            && w.s1 == p.s1 && w.s2 == p.s2 && w.s4 == p.s4
            && (p.s3.Some? ==> w.s3 == p.s3.value)
            && w.h == HOf(p)
            && w.junk == Some((p.jmin.value, p.jmax.value))
            && (p.headerProtectionKey.Some? && p.headerProtectionKey.value != "" ==>
                  w.hpkActive == HpkIsActive(p.headerProtectionKey.value))
  {
    hide Valid, Resolved, HpkIsActive, JunkOrdered, MustMatchValid, ClassOf, PassOne, EpochMember;
    Members(p);
    ResolvedMustMatch(S1, j, p);
    ResolvedMustMatch(S2, j, p);
    ResolvedMustMatch(S3, j, p);
    ResolvedMustMatch(S4, j, p);
    ResolvedMustMatch(H1, j, p);
    ResolvedMustMatch(H2, j, p);
    ResolvedMustMatch(H3, j, p);
    ResolvedMustMatch(H4, j, p);
    ResolvedMustMatch(HeaderProtectionKey, j, p);
    JunkIsValid(p);
    ResolvedEpoch(Jmin, j, p);
    ResolvedEpoch(Jmax, j, p);
  }

  lemma Members(p: AwgParams)
    ensures EpochMember(S1, p) == Some(Int(p.s1)) && EpochMember(S2, p) == Some(Int(p.s2))
    ensures EpochMember(S3, p) == OptInt(p.s3) && EpochMember(S4, p) == Some(Int(p.s4))
    ensures EpochMember(H1, p) == Some(FromIntOrRange(p.h1)) && EpochMember(H2, p) == Some(FromIntOrRange(p.h2))
    ensures EpochMember(H3, p) == Some(FromIntOrRange(p.h3)) && EpochMember(H4, p) == Some(FromIntOrRange(p.h4))
    ensures EpochMember(HeaderProtectionKey, p) == NonEmpty(p.headerProtectionKey)
  {
  }

  lemma {:induction false} ResolvedMustMatch(k: Key, j: Job, p: AwgParams)
    requires j.params == Some(p) && MustMatchValid(p) && JunkOrdered(p)
    ensures ClassOf(k).MustMatch? && EpochMember(k, p).Some? ==> Resolved(k, j) == EpochMember(k, p)
    ensures ClassOf(k).MustMatch? <==> k in {S1, S2, S3, S4, H1, H2, H3, H4, HeaderProtectionKey, RandomTrailers}
  {
    hide Valid, Resolved, EpochMember, JunkOrdered;
    if ClassOf(k).MustMatch? && EpochMember(k, p).Some? {
      ResolvedEpoch(k, j, p);
    }
  }

  lemma JunkIsValid(p: AwgParams)
    requires JunkOrdered(p)
    ensures p.jmin.Some? && p.jmax.Some?
    ensures EpochMember(Jmin, p) == Some(Int(p.jmin.value)) && Valid(Jmin, Int(p.jmin.value))
    ensures EpochMember(Jmax, p) == Some(Int(p.jmax.value)) && Valid(Jmax, Int(p.jmax.value))
  {
  }

  lemma SRange(p: AwgParams)
    requires MustMatchValid(p)
    ensures 0 <= p.s1 <= 65535 && 0 <= p.s2 <= 65535
  {
    assert EpochMember(S1, p) == Some(Int(p.s1)) && EpochMember(S2, p) == Some(Int(p.s2));
    assert Valid(S1, Int(p.s1)) && Valid(S2, Int(p.s2));
  }

  lemma {:induction false} EpochChecks(j: Job, p: AwgParams)
    requires j.params == Some(p) && SelfConsistent(p)
    ensures Check(WireOf(j)).None?
  {
    hide WireOf, HpkIsActive, MustMatchValid, JunkValueOk, HOf;
    WireOfEpoch(j, p);
    SRange(p);
    assert FirstOverlap(WireOf(j).h, 0, 1).None?;
  }

  /** On every conf with an interface section, under every draw of defaults, a self-consistent
      epoch merges. */
  lemma {:induction false} AcceptedEverywhere(conf: string, p: AwgParams, d: ClientDefaults)
    requires SelfConsistent(p) && HasSection(conf)
    ensures Merge(conf, Some(p), d).Ok?
  {
    hide Split, PassOne, WireOf, Spliced, InsertLines, SelfConsistent, Check;
    var j := JobOf(conf, Some(p), d);
    forall k
      ensures PassOne(k, j).Row?
    {
      Consistent(p);
      NoRejection(k, j, p);
    }
    MergeStability.ResolveAll(Table, j);
    EpochChecks(j, p);
  }

  lemma Consistent(p: AwgParams)
    requires SelfConsistent(p)
    ensures MustMatchValid(p)
  {
  }

  // ---- the condition is necessary ------------------------------------------------------------------

  lemma {:induction false} RejectedMerge(conf: string, p: AwgParams, d: ClientDefaults, k: Key)
    requires ClassOf(k).MustMatch? && EpochMember(k, p).Some? && !Valid(k, EpochMember(k, p).value)
    ensures Merge(conf, Some(p), d).Err?
  {
    hide Split, WireOf, Check, CanInsert, Spliced, Valid, ConfRaw, ConfValue, Render, EpochMember;
    var j := JobOf(conf, Some(p), d);
    assert PassOne(k, j).Rejected?;
    TableComplete(k);
  }

  lemma {:induction false} FailedCheck(conf: string, p: AwgParams, d: ClientDefaults)
    requires Check(WireOf(JobOf(conf, Some(p), d))).Some?
    ensures Merge(conf, Some(p), d).Err?
  {
    hide Split, WireOf, Check, CanInsert, Spliced, PassOne;
  }

  /** A conf that carries the junk bounds above and below every valid value. */
  const HIGH_LINE := Render(Jmin, Int(5000000000))
  const LOW_LINE := Render(Jmax, Int(-1))

  lemma {:induction false} InvertedConf() returns (ls: seq<string>)
    ensures ls == Split(Section([HIGH_LINE, LOW_LINE]), '\n') && HasSection(Section([HIGH_LINE, LOW_LINE]))
    ensures ConfValue(Jmin, ls) == Some(Int(5000000000)) && ConfValue(Jmax, ls) == Some(Int(-1))
  {
    hide Split, Section, HasSection, Render, ConfValue, ConfRaw, ParseConf, ShowValue;
    ShownInt(Jmin, 5000000000);
    ShownInt(Jmax, -1);
    SectionLines([HIGH_LINE, LOW_LINE]);
    ls := [HEADER] + [HIGH_LINE, LOW_LINE];
    assert [HIGH_LINE] + [LOW_LINE] == [HIGH_LINE, LOW_LINE] && [LOW_LINE] + [] == [LOW_LINE];
    AtLine(Jmin, Int(5000000000), [LOW_LINE]);
    AtLine(Jmax, Int(-1), []);
    BehindHeader(Jmin, [HIGH_LINE, LOW_LINE]);
    BehindHeader(Jmax, [HIGH_LINE, LOW_LINE]);
  }

  /** On it the pair stays inverted, whatever the epoch brings, unless its own pair is in order. */
  lemma {:induction false} StaysInverted(j: Job, p: AwgParams)
    requires j.params == Some(p) && !JunkOrdered(p)
    requires ConfValue(Jmin, j.conf) == Some(Int(5000000000)) && ConfValue(Jmax, j.conf) == Some(Int(-1))
    ensures Inverted(WireOf(j).junk)
  {
    hide ConfRaw, ConfValue, Render;
    TopUps.NoRawNoValue(Jmin, j.conf);
    TopUps.NoRawNoValue(Jmax, j.conf);
    assert Softens(j);
    assert Resolved(Jmin, j) == ConfValue(Jmin, j.conf);
    assert Resolved(Jmax, j) == ConfValue(Jmax, j.conf);
  }

  lemma {:induction false} JunkNeeded(p: AwgParams, d: ClientDefaults) returns (conf: string)
    requires !JunkOrdered(p)
    ensures HasSection(conf) && Merge(conf, Some(p), d).Err?
  {
    hide JunkOrdered, HasSection, Section, Split, WireOf, ConfValue, Merge;
    conf := Section([HIGH_LINE, LOW_LINE]);
    var ls := InvertedConf();
    StaysInverted(JobOf(conf, Some(p), d), p);
    FailedCheck(conf, p, d);
  }

  /** A conf whose key line is not a key at all, which counts as an active one. */
  const KEY_LINE := Render(HeaderProtectionKey, Str("x"))

  lemma {:induction false} KeyConf() returns (ls: seq<string>)
    ensures ls == Split(Section([KEY_LINE]), '\n') && HasSection(Section([KEY_LINE]))
    ensures ConfValue(HeaderProtectionKey, ls) == Some(Str("x")) && HpkIsActive("x")
    ensures ConfRaw(S3, ls) == None
  {
    hide Split, Section, HasSection, Render, ConfValue, ConfRaw, ParseConf;
    NameClean(HeaderProtectionKey);
    KeyLine();
    SectionLines([KEY_LINE]);
    ls := [HEADER] + [KEY_LINE];
    assert [KEY_LINE] + [] == [KEY_LINE];
    AtLine(HeaderProtectionKey, Str("x"), []);
    BehindHeader(HeaderProtectionKey, [KEY_LINE]);
    BehindHeader(S3, [KEY_LINE]);
    NoLines(S3);
  }

  lemma KeyLine()
    ensures '\n' !in KEY_LINE
    ensures ParseConf(HeaderProtectionKey, "x") == Some(Str("x"))
  {
    hide Name;
    NameClean(HeaderProtectionKey);
    TrimFixed("x");
  }

  lemma {:induction false} KeptKey(k: Key, j: Job, p: AwgParams)
    requires j.params == Some(p) && EpochMember(k, p).None? && !MergeStability.HasDefault(k)
    ensures Resolved(k, j) == ConfValue(k, j.conf)
  {
    hide ConfRaw, Render, Valid, Softens, EpochMember;
  }

  lemma {:induction false} PaddingNeeded(p: AwgParams, d: ClientDefaults) returns (conf: string)
    requires MustMatchValid(p) && JunkOrdered(p) && !PaddingSettled(p)
    ensures HasSection(conf) && Merge(conf, Some(p), d).Err?
  {
    hide Split, Section, HasSection, HpkIsActive, MustMatchValid, JunkOrdered, Merge, HOf, ConfValue, ConfRaw, Resolved,
         EpochMember, Check;
    conf := Section([KEY_LINE]);
    var ls := KeyConf();
    var j := JobOf(conf, Some(p), d);
    WireOfEpoch(j, p);
    SRange(p);
    Members(p);
    if NonEmpty(p.headerProtectionKey).None? {
      KeptKey(HeaderProtectionKey, j, p);
    }
    if p.s3.None? {
      KeptKey(S3, j, p);
      TopUps.NoRawNoValue(S3, ls);
    }
    PaddingFails(WireOf(j));
    FailedCheck(conf, p, d);
  }

  lemma PaddingFails(w: Wire)
    requires |w.h| == 4
    ensures w.hpkActive && (w.s1 < 12 || w.s2 < 12 || w.s3 < 12 || w.s4 < 12) ==> Check(w).Some?
  {
    hide FirstOverlap, Wrap64;
  }

  lemma {:induction false} OverlapFails(w: Wire, a: nat, b: nat)
    requires |w.h| == 4 && a < b < 4 && Overlap(w.h[a], w.h[b])
    ensures Check(w).Some?
  {
    hide FirstOverlap, Wrap64, Overlap;
    OverlapIsFirst(w.h, 0, 1, a, b);
  }

  lemma {:induction false} OwnValuesNeeded(p: AwgParams, d: ClientDefaults) returns (conf: string)
    requires MustMatchValid(p) && JunkOrdered(p)
    requires p.s1 + 56 == p.s2 || exists a, b :: 0 <= a < b < 4 && Overlap(HOf(p)[a], HOf(p)[b])
    ensures HasSection(conf) && Merge(conf, Some(p), d).Err?
  {
    hide Split, Section, HasSection, MustMatchValid, JunkOrdered, Merge, HOf, Overlap, WireOf, FirstOverlap;
    conf := Section([]);
    SectionLines([]);
    var j := JobOf(conf, Some(p), d);
    WireOfEpoch(j, p);
    SRange(p);
    if p.s1 + 56 != p.s2 {
      var a, b :| 0 <= a < b < 4 && Overlap(HOf(p)[a], HOf(p)[b]);
      OverlapFails(WireOf(j), a, b);
    }
    FailedCheck(conf, p, d);
  }

  /** An epoch that is not self-consistent fails on some conf with an interface section. */
  lemma {:induction false} BlockedSomewhere(p: AwgParams, d: ClientDefaults) returns (conf: string)
    requires !SelfConsistent(p)
    ensures HasSection(conf) && Merge(conf, Some(p), d).Err?
  {
    hide Merge, HasSection, Section, HOf, Overlap, Valid, EpochMember, PaddingSettled, JunkOrdered;
    if k :| ClassOf(k).MustMatch? && EpochMember(k, p).Some? && !Valid(k, EpochMember(k, p).value) {
      conf := Section([]);
      SectionLines([]);
      RejectedMerge(conf, p, d, k);
    } else if !JunkOrdered(p) {
      conf := JunkNeeded(p, d);
    } else if !PaddingSettled(p) {
      conf := PaddingNeeded(p, d);
    } else {
      conf := OwnValuesNeeded(p, d);
    }
  }

  /** Self-consistency is exactly what it takes: such an epoch merges into every conf with an
      interface section, and no other epoch does. */
  lemma {:induction false} AcceptedIff(p: AwgParams, d: ClientDefaults)
    ensures SelfConsistent(p) <==> forall conf :: HasSection(conf) ==> Merge(conf, Some(p), d).Ok?
  {
    hide Merge, HasSection, SelfConsistent;
    if SelfConsistent(p) {
      forall conf | HasSection(conf)
        ensures Merge(conf, Some(p), d).Ok?
      {
        AcceptedEverywhere(conf, p, d);
      }
    } else {
      var conf := BlockedSomewhere(p, d);
    }
  }

  /** An undisturbed tick lands such an epoch on every host: on disk, in the kernel and in the
      state file, with a safe conf. */
  lemma {:induction false} EpochLands(s: State, e: int, p: AwgParams)
    requires s.pc.Idle? && s.lock.Free? && e > Last(s.epoch)
    requires SelfConsistent(p)
    requires HasSection(s.disk.text)
    ensures var acts := PlainTick(e, p);
            && Runs(s, acts)
            && Run(s, acts).epoch == Some(e)
            && Run(s, acts).kernel == Loaded(Run(s, acts).disk)
            && SafeConf(Run(s, acts).disk.text)
  {
    hide Runs, Run, Merge, SelfConsistent, HasSection, SafeConf;
    AcceptedEverywhere(s.disk.text, p, s.defaults);
    TickCompletes(s, e, p);
    WrittenConfIsSafe(s.disk.text, Some(p), s.defaults);
  }

  /** The header is among the lines the merge does not own. */
  lemma {:induction false} SectionIsUnowned(text: string)
    ensures HasSection(text) <==> exists line :: line in Unowned(text) && IsHeader(line)
  {
    hide Split, SpliceProofs.Select, Owner;
    var ls := Split(text, '\n');
    if HasSection(text) {
      var line := ls[HeaderIndex(ls)];
      HeaderUnowned(line);
      SpliceProofs.SelectHas(ls, line);
    }
    if line :| line in Unowned(text) && IsHeader(line) {
      SpliceProofs.SelectMember(ls, None, line);
      var i :| 0 <= i < |ls| && ls[i] == line;
      assert IsHeader(ls[i]);
    }
  }

  lemma {:induction false} SameSection(a: string, b: string)
    requires Unowned(a) == Unowned(b)
    ensures HasSection(a) == HasSection(b)
  {
    hide HasSection, Unowned, IsHeader;
    SectionIsUnowned(a);
    SectionIsUnowned(b);
  }

  lemma {:induction false} InstalledAppend(text: string, a: seq<Event>, b: seq<Event>)
    requires forall i :: 0 <= i < |b| ==> !b[i].InstallerWrite?
    ensures LastInstalled(text, a + b) == LastInstalled(text, a)
    decreases |a|, |b|
  {
    if a != [] {
      assert (a + b)[1..] == a[1..] + b;
      InstalledAppend(if a[0].InstallerWrite? then a[0].text else text, a[1..], b);
    } else if b != [] {
      assert a + b == b && [] + b[1..] == b[1..];
      InstalledAppend(text, [], b[1..]);
    } else {
      assert a + b == [];
    }
  }

  /** After every run, whatever happened in it: once the agent is idle and the lock free, an
      undisturbed tick lands a self-consistent epoch, provided the installer's last conf had an
      interface section. The conf it leaves is safe and still has the installer's foreign lines. */
  lemma {:induction false} LandsAfterAnyRun(s: State, acts: seq<Event>, e: int, p: AwgParams)
    requires Init(s) && Runs(s, acts) && SelfConsistent(p)
    requires Run(s, acts).pc.Idle? && Run(s, acts).lock.Free? && e > Last(Run(s, acts).epoch)
    requires HasSection(LastInstalled(s.disk.text, acts))
    ensures var all := acts + PlainTick(e, p);
            && Runs(s, all)
            && Run(s, all).epoch == Some(e)
            && Run(s, all).kernel == Loaded(Run(s, all).disk)
            && SafeConf(Run(s, all).disk.text)
            && Unowned(Run(s, all).disk.text) == Unowned(LastInstalled(s.disk.text, acts))
  {
    hide Runs, Run, Init, SelfConsistent, HasSection, SafeConf, Unowned, LastInstalled;
    var t, tick := Run(s, acts), PlainTick(e, p);
    NoLostUpdate(s, acts);
    SameSection(t.disk.text, LastInstalled(s.disk.text, acts));
    EpochLands(t, e, p);
    RunAppend(s, acts, tick);
    NoLostUpdate(s, acts + tick);
    InstalledAppend(s.disk.text, acts, tick);
  }

  /** Such epochs exist. */
  lemma PlainEpoch() returns (p: AwgParams)
    ensures SelfConsistent(p)
  {
    p := AwgParams(None, Some(50), Some(100), 20, 30, Some(40), 50, Single(5), Single(6), Single(7), Single(8),
                   None, None, None, None, None, None, None, None, None, None, None, None, None, None);
    forall k | ClassOf(k).MustMatch? && EpochMember(k, p).Some?
      ensures Valid(k, EpochMember(k, p).value)
    {
    }
  }

  lemma SomeDefaults() returns (d: ClientDefaults)
    ensures InBand(d)
  {
    hide TagOf, RangeOf;
    d := ClientDefaults(TagOf(32), RangeOf(8, 16), 3, 40, 90);
  }

  lemma FreshHost(conf: string) returns (s: State)
    ensures Init(s) && s.lock.Free? && s.epoch.None? && s.disk.text == conf
  {
    hide InBand;
    var d := SomeDefaults();
    var v := Version(conf, 0);
    s := State(v, 1, Free, Unknown, {}, None, Start, d, {v}, conf, {}, []);
  }

  /** The window of `WindowReachable` opens on a real host: for every text there is a run from a fresh
      start that saves an epoch while the kernel runs that text. */
  lemma {:induction false} WindowExists(text: string) returns (s: State, acts: seq<Event>)
    ensures Init(s) && Runs(s, acts)
    ensures Run(s, acts).epoch == Some(1)
    ensures Run(s, acts).kernel.Loaded? && Run(s, acts).kernel.v.text == text
  {
    hide Runs, Run, Merge, SelfConsistent, HasSection, Section, Init, BusyStart, WindowTick;
    var p := PlainEpoch();
    var conf := Section([]);
    SectionLines([]);
    s := FreshHost(conf);
    AcceptedEverywhere(conf, p, s.defaults);
    acts := BusyStart(s) + WindowTick(1, p, text);
    WindowReachable(s, 1, p, text);
  }
}
