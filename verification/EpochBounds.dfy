/**
 The epochs in numbers and texts: which are accepted, and which of their fields are refused.
 */
module EpochBounds {
  import opened Common
  import opened Params
  import opened FieldSpecs
  import opened ConfMerge
  import opened MergeReport
  import opened EpochAcceptance
  import opened HeaderKeys

  function Low(h: IntOrRange): int {
    if h.Single? then h.n else h.lo
  }

  function High(h: IntOrRange): int {
    if h.Single? then h.n else h.hi
  }

  predicate IsSize(n: int) {
    0 <= n <= 65535
  }

  predicate IsSpan(h: IntOrRange) {
    5 <= Low(h) <= High(h) <= 4294967295
  }

  /** The sizes, tag ranges and key of the epoch are well formed. */
  predicate WireInBounds(p: AwgParams) {
    && IsSize(p.s1) && IsSize(p.s2) && IsSize(p.s4) && (p.s3.Some? ==> IsSize(p.s3.value))
    && IsSpan(p.h1) && IsSpan(p.h2) && IsSpan(p.h3) && IsSpan(p.h4)
    && (Given(p.headerProtectionKey) ==> IsKey(p.headerProtectionKey.value))
  }

  lemma {:induction false} MustMatchIs(p: AwgParams)
    ensures MustMatchValid(p) <==> WireInBounds(p)
  {
    hide Valid, IsSize, IsSpan, IsKey;
    SizeIsValid();
    SpanIsValid(p.h1);
    SpanIsValid(p.h2);
    SpanIsValid(p.h3);
    SpanIsValid(p.h4);
    if Given(p.headerProtectionKey) {
      KeyIsValid(p.headerProtectionKey.value);
    }
    if MustMatchValid(p) {
      assert Valid(S1, EpochMember(S1, p).value) && Valid(S2, EpochMember(S2, p).value);
      assert Valid(S4, EpochMember(S4, p).value);
      assert p.s3.Some? ==> Valid(S3, EpochMember(S3, p).value);
      assert Valid(H1, EpochMember(H1, p).value) && Valid(H2, EpochMember(H2, p).value);
      assert Valid(H3, EpochMember(H3, p).value) && Valid(H4, EpochMember(H4, p).value);
      assert Given(p.headerProtectionKey) ==> Valid(HeaderProtectionKey, EpochMember(HeaderProtectionKey, p).value);
    }
    if WireInBounds(p) {
      forall k | ClassOf(k).MustMatch? && EpochMember(k, p).Some?
        ensures Valid(k, EpochMember(k, p).value)
      {
        SwitchIsValid();
      }
    }
  }

  lemma SizeIsValid()
    ensures forall k, n | k in {S1, S2, S3, S4} :: Valid(k, Int(n)) <==> IsSize(n)
  {
  }

  lemma SpanIsValid(h: IntOrRange)
    ensures forall k | k in {H1, H2, H3, H4} :: Valid(k, FromIntOrRange(h)) <==> IsSpan(h)
  {
  }

  lemma KeyIsValid(s: string)
    ensures Valid(HeaderProtectionKey, Str(s)) <==> IsKey(s)
  {
    hide HpkOk, IsKey;
    KeyText(s);
  }

  lemma SwitchIsValid()
    ensures forall b :: Valid(RandomTrailers, Flag(b))
  {
  }

  /** No epoch gets into any conf with a size, tag range or key out of bounds. */
  lemma {:induction false} WireBounds(conf: string, p: AwgParams, d: ClientDefaults)
    requires Merge(conf, Some(p), d).Ok?
    ensures WireInBounds(p)
  {
    hide Merge, Valid, EpochMember, WireInBounds;
    forall k | ClassOf(k).MustMatch? && EpochMember(k, p).Some?
      ensures Valid(k, EpochMember(k, p).value)
    {
      MustMatchIsValid(conf, p, d, k);
    }
    MustMatchIs(p);
  }

  predicate Disjoint(a: IntOrRange, b: IntOrRange) {
    High(a) < Low(b) || High(b) < Low(a)
  }

  /** The self-consistent epochs, which are those that no conf can block, in numbers. */
  predicate Sound(p: AwgParams) {
    && WireInBounds(p)
    && p.s1 + 56 != p.s2
    && Disjoint(p.h1, p.h2) && Disjoint(p.h1, p.h3) && Disjoint(p.h1, p.h4)
    && Disjoint(p.h2, p.h3) && Disjoint(p.h2, p.h4) && Disjoint(p.h3, p.h4)
    && (|| (p.headerProtectionKey.Some? && IsOffKey(p.headerProtectionKey.value))
        || (p.s3.Some? && p.s1 >= 12 && p.s2 >= 12 && p.s3.value >= 12 && p.s4 >= 12))
    && p.jmin.Some? && p.jmax.Some? && 0 <= p.jmin.value <= p.jmax.value <= 4294967295
  }

  lemma {:induction false} SoundIsConsistent(p: AwgParams)
    ensures SelfConsistent(p) <==> Sound(p)
  {
    hide MustMatchValid, WireInBounds, HpkIsActive;
    MustMatchIs(p);
    if p.headerProtectionKey.Some? {
      InactiveKey(p.headerProtectionKey.value);
    }
    var h := HOf(p);
    assert Overlap(h[0], h[1]) <==> !Disjoint(p.h1, p.h2);
    assert Overlap(h[0], h[2]) <==> !Disjoint(p.h1, p.h3);
    assert Overlap(h[0], h[3]) <==> !Disjoint(p.h1, p.h4);
    assert Overlap(h[1], h[2]) <==> !Disjoint(p.h2, p.h3);
    assert Overlap(h[1], h[3]) <==> !Disjoint(p.h2, p.h4);
    assert Overlap(h[2], h[3]) <==> !Disjoint(p.h3, p.h4);
  }

  // ---- refused fields -------------------------------------------------------------------------------

  predicate BadCount(n: Option<int>) {
    n.Some? && !(0 <= n.value <= 4294967295)
  }

  predicate BadTag(s: Option<string>) {
    Given(s) && !ITagOk(s.value)
  }

  predicate BadRange(s: Option<string>) {
    Given(s) && !RangeStringOk(s.value)
  }

  /** A field other than the junk bounds is reported exactly when its epoch value was refused. */
  lemma {:induction false} ReportedIff(conf: string, p: AwgParams, d: ClientDefaults, k: Key)
    requires Merge(conf, Some(p), d).Ok?
    ensures Refused(k, Some(p)) ==> k in Merge(conf, Some(p), d).dropped
    ensures k != Jmin && k != Jmax && k in Merge(conf, Some(p), d).dropped ==> Refused(k, Some(p))
  {
    hide Merge, Refused, Clash;
    var refused := ReportIs(conf, Some(p), d);
    var dropped := Merge(conf, Some(p), d).dropped;
    if k in refused {
      var i :| 0 <= i < |refused| && refused[i] == k;
      assert dropped[i] == k;
    }
    assert forall x :: x in Surrendered(conf, Some(p), d) ==> x == Jmin || x == Jmax;
  }

  /** The counts that the report names. The cookie switch and the fields on which both ends of a tunnel
      have to agree are never among the reported. */
  lemma {:induction false} RefusedCounts(conf: string, p: AwgParams, d: ClientDefaults)
    requires Merge(conf, Some(p), d).Ok?
    ensures var dropped := Merge(conf, Some(p), d).dropped;
            && (Jc in dropped <==> BadCount(p.jc))
            && (BadCount(p.jmin) ==> Jmin in dropped) && (BadCount(p.jmax) ==> Jmax in dropped)
            && forall k :: k in {S1, S2, S3, S4, H1, H2, H3, H4, HeaderProtectionKey, RandomTrailers, DisableCookies}
                 ==> k !in dropped
  {
    hide Merge;
    ReportedIff(conf, p, d, Jc);
    ReportedIff(conf, p, d, Jmin);
    ReportedIff(conf, p, d, Jmax);
    forall k | k in {S1, S2, S3, S4, H1, H2, H3, H4, HeaderProtectionKey, RandomTrailers, DisableCookies}
      ensures k !in Merge(conf, Some(p), d).dropped
    {
      ReportedIff(conf, p, d, k);
      NeverRefused(k, p);
    }
  }

  lemma NeverRefused(k: Key, p: AwgParams)
    requires k in {S1, S2, S3, S4, H1, H2, H3, H4, HeaderProtectionKey, RandomTrailers, DisableCookies}
    ensures !Refused(k, Some(p))
  {
  }

  lemma {:induction false} TagReported(conf: string, p: AwgParams, d: ClientDefaults, k: Key, s: Option<string>)
    requires Merge(conf, Some(p), d).Ok? && EpochMember(k, p) == NonEmpty(s) && k in {I1, I2, I3, I4, I5}
    ensures k in Merge(conf, Some(p), d).dropped <==> BadTag(s)
  {
    hide Merge, ITagOk, EpochMember;
    ReportedIff(conf, p, d, k);
  }

  /** The tags that the report names. */
  lemma {:induction false} RefusedTags(conf: string, p: AwgParams, d: ClientDefaults)
    requires Merge(conf, Some(p), d).Ok?
    ensures var dropped := Merge(conf, Some(p), d).dropped;
            && (I1 in dropped <==> BadTag(p.i1)) && (I2 in dropped <==> BadTag(p.i2))
            && (I3 in dropped <==> BadTag(p.i3)) && (I4 in dropped <==> BadTag(p.i4))
            && (I5 in dropped <==> BadTag(p.i5))
  {
    hide Merge, BadTag;
    TagReported(conf, p, d, I1, p.i1);
    TagReported(conf, p, d, I2, p.i2);
    TagReported(conf, p, d, I3, p.i3);
    TagReported(conf, p, d, I4, p.i4);
    TagReported(conf, p, d, I5, p.i5);
  }

  lemma {:induction false} RangeReported(conf: string, p: AwgParams, d: ClientDefaults, k: Key, s: Option<string>)
    requires Merge(conf, Some(p), d).Ok? && EpochMember(k, p) == NonEmpty(s)
    requires k in {ContentPaddingAddition, RekeyAfterTime, RekeyTimeout, RejectAfterTime, KeepaliveTimeout,
                   MaxHandshakeAttempts}
    ensures k in Merge(conf, Some(p), d).dropped <==> BadRange(s)
  {
    hide Merge, RangeStringOk, EpochMember;
    ReportedIff(conf, p, d, k);
  }

  /** The ranges that the report names. */
  lemma {:induction false} RefusedRanges(conf: string, p: AwgParams, d: ClientDefaults)
    requires Merge(conf, Some(p), d).Ok?
    ensures var dropped := Merge(conf, Some(p), d).dropped;
            && (ContentPaddingAddition in dropped <==> BadRange(p.contentPaddingAddition))
            && (RekeyAfterTime in dropped <==> BadRange(p.rekeyAfterTime))
            && (RekeyTimeout in dropped <==> BadRange(p.rekeyTimeout))
            && (RejectAfterTime in dropped <==> BadRange(p.rejectAfterTime))
            && (KeepaliveTimeout in dropped <==> BadRange(p.keepaliveTimeout))
            && (MaxHandshakeAttempts in dropped <==> BadRange(p.maxHandshakeAttempts))
  {
    hide Merge, BadRange;
    RangeReported(conf, p, d, ContentPaddingAddition, p.contentPaddingAddition);
    RangeReported(conf, p, d, RekeyAfterTime, p.rekeyAfterTime);
    RangeReported(conf, p, d, RekeyTimeout, p.rekeyTimeout);
    RangeReported(conf, p, d, RejectAfterTime, p.rejectAfterTime);
    RangeReported(conf, p, d, KeepaliveTimeout, p.keepaliveTimeout);
    RangeReported(conf, p, d, MaxHandshakeAttempts, p.maxHandshakeAttempts);
  }
}
