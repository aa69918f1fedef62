/**
 The temporal-layer cap of one subscriber: a controller with hysteresis over the bandwidth
 estimate, combined with the cap the client asks for.
 */
module TemporalCap {
  import opened Common

  type Cap = c: int | 0 <= c <= 255

  /** `u8::MAX`: no cap. */
  const MAX: Cap := 255

  /** The rail below which an uncapped subscriber is capped again. */
  function Reenter(lo: nat, hi: nat): nat {
    SatSub(hi, SatSub(hi, lo) / 5)
  }

  function NextCap(lo: nat, hi: nat, cap: Cap, budget: Option<nat>): Cap {
    match budget
    case None => MAX
    case Some(b) =>
      if b < lo then 0
      else if b >= hi then MAX
      else if cap == 0 then 0
      else if cap == MAX && b >= Reenter(lo, hi) then MAX
      else 1
  }

  // ---- the object ---------------------------------------------------------------------------

  class Subscriber {
    const lo: nat
    const hi: nat
    var clientCap: Cap
    var bweCap: Cap
    var structures: map<int, string>

    constructor (lo: nat, hi: nat)
      ensures this.lo == lo && this.hi == hi
      ensures clientCap == MAX && bweCap == MAX && structures == map[]
    {
      this.lo, this.hi := lo, hi;
      clientCap, bweCap, structures := MAX, MAX, map[];
    }

    /** The more restrictive of the two caps. */
    function EffectiveCap(): (c: Cap)
      reads this
      ensures c <= clientCap && c <= bweCap && (c == clientCap || c == bweCap)
    {
      if clientCap <= bweCap then clientCap else bweCap
    }

    /** `bwe_select_temporal_cap`: the new cap is the controller's; the structure cache is
        emptied exactly when this engages a cap on an uncapped subscriber. */
    method SelectTemporalCap(budget: Option<nat>) returns (next: Cap)
      modifies this`bweCap, this`structures
      ensures next == bweCap == NextCap(lo, hi, old(bweCap), budget)
      ensures structures == if old(EffectiveCap()) == MAX && EffectiveCap() < MAX then map[] else old(structures)
    {
      var reenter := SatSub(hi, SatSub(hi, lo) / 5);
      match budget {
        case None => next := MAX;
        case Some(b) =>
          if b < lo {
            next := 0;
          } else if b >= hi {
            next := MAX;
          } else if bweCap == 0 {
            next := 0;
          } else if bweCap == MAX && b >= reenter {
            next := MAX;
          } else {
            next := 1;
          }
      }
      var before := EffectiveCap();
      bweCap := next;
      if before == MAX && EffectiveCap() < MAX {
        structures := map[];
      }
    }

    /** `set_max_vfm_temporal_layer`. */
    method SetClientCap(max: Cap)
      modifies this`clientCap, this`structures
      ensures clientCap == max
      ensures structures == if old(EffectiveCap()) == MAX && EffectiveCap() < MAX then map[] else old(structures)
    {
      var before := EffectiveCap();
      clientCap := max;
      if before == MAX && EffectiveCap() < MAX {
        structures := map[];
      }
    }

    /** A whole sequence of estimates, one call each. */
    method Drive(budgets: seq<Option<nat>>)
      modifies this`bweCap, this`structures
      ensures bweCap == CapAfter(lo, hi, old(bweCap), budgets)
    {
      var i := 0;
      while i < |budgets|
        invariant 0 <= i <= |budgets|
        invariant bweCap == CapAfter(lo, hi, old(bweCap), budgets[..i])
      {
        var _ := SelectTemporalCap(budgets[i]);
        assert budgets[..i + 1][..i] == budgets[..i];
        i := i + 1;
      }
      assert budgets[..i] == budgets;
    }
  }

  // ---- whole runs ---------------------------------------------------------------------------

  /** The cap after a sequence of estimates. */
  function CapAfter(lo: nat, hi: nat, start: Cap, bs: seq<Option<nat>>): Cap {
    if bs == [] then start
    else NextCap(lo, hi, CapAfter(lo, hi, start, bs[..|bs| - 1]), bs[|bs| - 1])
  }

  /** How often the run goes from capped to uncapped or back. */
  function Toggles(lo: nat, hi: nat, start: Cap, bs: seq<Option<nat>>): nat {
    if bs == [] then 0
    else
      var init := bs[..|bs| - 1];
      Toggles(lo, hi, start, init)
      + if (CapAfter(lo, hi, start, init) == MAX) != (CapAfter(lo, hi, start, bs) == MAX) then 1 else 0
  }

  /** How often the run lifts the cap. */
  function Uncaps(lo: nat, hi: nat, start: Cap, bs: seq<Option<nat>>): nat {
    if bs == [] then 0
    else
      var init := bs[..|bs| - 1];
      Uncaps(lo, hi, start, init)
      + if CapAfter(lo, hi, start, init) != MAX && CapAfter(lo, hi, start, bs) == MAX then 1 else 0
  }

  /** How often the run lifts the cap on an estimate. */
  function Earned(lo: nat, hi: nat, bs: seq<Option<nat>>): nat {
    if bs == [] then 0
    else
      var init, last := bs[..|bs| - 1], bs[|bs| - 1];
      Earned(lo, hi, init)
      + if last.Some? && CapAfter(lo, hi, MAX, init) != MAX && CapAfter(lo, hi, MAX, bs) == MAX then 1 else 0
  }

  /** How often an estimate is missing while the cap is on: each time lifts it for nothing. */
  function Free(lo: nat, hi: nat, bs: seq<Option<nat>>): nat {
    if bs == [] then 0
    else
      var init := bs[..|bs| - 1];
      Free(lo, hi, init) + if bs[|bs| - 1].None? && CapAfter(lo, hi, MAX, init) != MAX then 1 else 0
  }

  /** The estimates that are there, in order. */
  function Present(bs: seq<Option<nat>>): seq<nat> {
    if bs == [] then []
    else Present(bs[..|bs| - 1]) + match bs[|bs| - 1] case Some(b) => [b] case None => []
  }

  function Distance(a: nat, b: nat): nat {
    if a <= b then b - a else a - b
  }

  /** The total variation of the estimates. */
  function Variation(xs: seq<nat>): nat {
    if |xs| <= 1 then 0 else Variation(xs[..|xs| - 1]) + Distance(xs[|xs| - 2], xs[|xs| - 1])
  }

  /** The cost of one toggle: a fifth of the distance between the rails, and one more. */
  function Band(lo: nat, hi: nat): nat {
    SatSub(hi, lo) / 5 + 1
  }

  /** The estimate from which on a capped subscriber is uncapped. With crossed rails that is
      the lower rail, below which the cap is always on. */
  function Exit(lo: nat, hi: nat): nat {
    if lo > hi then lo else hi
  }

  /** The estimate below which an uncapped subscriber is capped. */
  function Entry(lo: nat, hi: nat): nat {
    if lo > hi then lo else Reenter(lo, hi)
  }

  lemma Rails(lo: nat, hi: nat)
    ensures Entry(lo, hi) <= Exit(lo, hi) && Exit(lo, hi) - Entry(lo, hi) + 1 == Band(lo, hi)
  {
  }

  /** The controller toggles at these two estimates and nowhere else, whatever the rails. */
  lemma TogglesAtRails(lo: nat, hi: nat, cap: Cap, b: nat)
    ensures cap == MAX ==> (NextCap(lo, hi, cap, Some(b)) == MAX <==> b >= Entry(lo, hi))
    ensures cap != MAX ==> (NextCap(lo, hi, cap, Some(b)) == MAX <==> b >= Exit(lo, hi))
  {
  }

  /** Rails that meet or cross leave no hysteresis: the cap depends on the last estimate alone. */
  lemma CrossedRails(lo: nat, hi: nat, cap: Cap, b: nat)
    requires lo >= hi
    ensures NextCap(lo, hi, cap, Some(b)) == if b < lo then 0 else MAX
  {
  }

  lemma {:induction false} EarnedOrFree(lo: nat, hi: nat, bs: seq<Option<nat>>)
    ensures Uncaps(lo, hi, MAX, bs) == Earned(lo, hi, bs) + Free(lo, hi, bs)
  {
    hide NextCap;
    if bs != [] {
      EarnedOrFree(lo, hi, bs[..|bs| - 1]);
      NoneUncaps(lo, hi, CapAfter(lo, hi, MAX, bs[..|bs| - 1]));
    }
  }

  lemma NoneUncaps(lo: nat, hi: nat, cap: Cap)
    ensures NextCap(lo, hi, cap, None) == MAX
  {
  }

  lemma OneMore(t: int, band: nat)
    ensures (t + 1) * band == t * band + band
  {
  }

  /** What the variation `v` has paid for once `k` toggles were charged, with the last estimate `b`.
      While capped it has also paid the way from the entry rail up to `b`. While uncapped it has
      paid the way from the exit rail down to `b`, or the next toggle in full. */
  ghost predicate PaidUp(lo: nat, hi: nat, k: int, capped: bool, b: nat, v: nat) {
    var charged := k * Band(lo, hi);
    && charged <= v
    && (if capped then charged + b - Entry(lo, hi) + 1 <= v
        else charged + Exit(lo, hi) - b <= v || (k + 1) * Band(lo, hi) <= v)
  }

  /** A further estimate `c` charges a toggle if it causes one. */
  lemma {:induction false} PaidEstimate(lo: nat, hi: nat, k: int, cap: Cap, b: nat, v: nat, c: nat)
    requires PaidUp(lo, hi, k, cap != MAX, b, v)
    ensures var next := NextCap(lo, hi, cap, Some(c));
            PaidUp(lo, hi, if (cap == MAX) == (next == MAX) then k else k + 1, next != MAX, c, v + Distance(b, c))
  {
    hide NextCap, Entry, Exit, Band;
    Rails(lo, hi);
    TogglesAtRails(lo, hi, cap, c);
    OneMore(k, Band(lo, hi));
    OneMore(k + 1, Band(lo, hi));
  }

  /** A missing estimate while capped gives back the toggle it causes and the next one. */
  lemma {:induction false} PaidMissing(lo: nat, hi: nat, k: int, b: nat, v: nat)
    requires PaidUp(lo, hi, k, true, b, v)
    ensures PaidUp(lo, hi, k - 1, false, b, v)
  {
    hide Entry, Exit;
    OneMore(k - 1, Band(lo, hi));
  }

  /** The toggles of a run that have to be paid for: not the first, and none of the two around a
      missing estimate. */
  function Charged(lo: nat, hi: nat, bs: seq<Option<nat>>): int {
    Toggles(lo, hi, MAX, bs) - 1 - 2 * Free(lo, hi, bs)
  }

  /** Before the first toggle nothing has happened; from then on every charged toggle is paid. */
  ghost predicate PaidRun(lo: nat, hi: nat, bs: seq<Option<nat>>) {
    var xs, cap := Present(bs), CapAfter(lo, hi, MAX, bs);
    if Toggles(lo, hi, MAX, bs) == 0 then cap == MAX && Free(lo, hi, bs) == 0
    else xs != [] && PaidUp(lo, hi, Charged(lo, hi, bs), cap != MAX, xs[|xs| - 1], Variation(xs))
  }

  lemma {:induction false} PaidGap(lo: nat, hi: nat, init: seq<Option<nat>>, bs: seq<Option<nat>>)
    requires bs != [] && init == bs[..|bs| - 1] && bs[|bs| - 1].None? && PaidRun(lo, hi, init)
    ensures PaidRun(lo, hi, bs)
  {
    hide NextCap, PaidUp, Variation;
    var xs, cap := Present(init), CapAfter(lo, hi, MAX, init);
    NoneUncaps(lo, hi, cap);
    assert Present(bs) == xs;
    if cap != MAX {
      PaidMissing(lo, hi, Charged(lo, hi, init), xs[|xs| - 1], Variation(xs));
    }
  }

  lemma {:induction false} PaidSample(lo: nat, hi: nat, init: seq<Option<nat>>, bs: seq<Option<nat>>, c: nat)
    requires bs != [] && init == bs[..|bs| - 1] && bs[|bs| - 1] == Some(c) && PaidRun(lo, hi, init)
    ensures PaidRun(lo, hi, bs)
  {
    hide NextCap, PaidUp;
    var xs, cap := Present(init), CapAfter(lo, hi, MAX, init);
    assert Present(bs)[..|xs|] == xs;
    if Toggles(lo, hi, MAX, init) > 0 {
      PaidEstimate(lo, hi, Charged(lo, hi, init), cap, xs[|xs| - 1], Variation(xs), c);
    } else if CapAfter(lo, hi, MAX, bs) != MAX {
      FirstToggle(lo, hi, c, Variation(Present(bs)));
    }
  }

  lemma {:induction false} Paid(lo: nat, hi: nat, bs: seq<Option<nat>>)
    ensures PaidRun(lo, hi, bs)
  {
    if bs != [] {
      hide PaidRun;
      var init := bs[..|bs| - 1];
      Paid(lo, hi, init);
      match bs[|bs| - 1] {
        case None => PaidGap(lo, hi, init, bs);
        case Some(c) => PaidSample(lo, hi, init, bs, c);
      }
    }
  }

  lemma {:induction false} FirstToggle(lo: nat, hi: nat, c: nat, v: nat)
    requires NextCap(lo, hi, MAX, Some(c)) != MAX
    ensures PaidUp(lo, hi, 0, true, c, v)
  {
    TogglesAtRails(lo, hi, MAX, c);
  }

  /** Hysteresis over all runs and all rails: starting uncapped, every toggle after the first costs
      the variation one band, except for two at each estimate that is missing under a cap. */
  lemma {:induction false} HysteresisBound(lo: nat, hi: nat, bs: seq<Option<nat>>)
    ensures Toggles(lo, hi, MAX, bs) > 0 ==>
              (Toggles(lo, hi, MAX, bs) - 1 - 2 * Free(lo, hi, bs)) * Band(lo, hi) <= Variation(Present(bs))
  {
    hide NextCap, Band, CapAfter, Toggles, Free, Variation, Present;
    Paid(lo, hi, bs);
  }

  lemma {:induction false} UncapsAndToggles(lo: nat, hi: nat, bs: seq<Option<nat>>)
    ensures var t, u := Toggles(lo, hi, MAX, bs), Uncaps(lo, hi, MAX, bs);
            if CapAfter(lo, hi, MAX, bs) == MAX then t == 2 * u else t == 2 * u + 1
  {
    hide NextCap;
    if bs != [] {
      UncapsAndToggles(lo, hi, bs[..|bs| - 1]);
    }
  }

  lemma Scale(u: int, t: int, band: nat)
    requires u <= t
    ensures u * band <= t * band
  {
  }

  /** Over all runs and all rails, the uncaps that no missing estimate gave away are bounded by the
      variation of the estimates. */
  lemma {:induction false} UncapBound(lo: nat, hi: nat, bs: seq<Option<nat>>)
    ensures Uncaps(lo, hi, MAX, bs) >= Free(lo, hi, bs)
    ensures (Uncaps(lo, hi, MAX, bs) - Free(lo, hi, bs)) * Band(lo, hi) <= Variation(Present(bs))
  {
    hide NextCap, Band, CapAfter, Toggles, Uncaps, Free, Variation, Present;
    EarnedOrFree(lo, hi, bs);
    UncapsAndToggles(lo, hi, bs);
    HysteresisBound(lo, hi, bs);
    var u := Uncaps(lo, hi, MAX, bs) - Free(lo, hi, bs);
    if u > 0 {
      Scale(u, Toggles(lo, hi, MAX, bs) - 1 - 2 * Free(lo, hi, bs), Band(lo, hi));
    }
  }

  // ---- when missing estimates matter ------------------------------------------------------------

  /** The bound without the correction for missing estimates. */
  predicate Bounded(lo: nat, hi: nat, bs: seq<Option<nat>>) {
    Uncaps(lo, hi, MAX, bs) * Band(lo, hi) <= Variation(Present(bs))
  }

  /** Two runs miss their estimates at the same places. */
  predicate SameGaps(bs: seq<Option<nat>>, cs: seq<Option<nat>>) {
    |bs| == |cs| && forall i :: 0 <= i < |bs| ==> (bs[i].None? <==> cs[i].None?)
  }

  /** Once an estimate has come, none is missing. */
  predicate GapsFirst(bs: seq<Option<nat>>) {
    forall i :: 0 < i < |bs| && bs[i].None? ==> bs[i - 1].None?
  }

  lemma {:induction false} GapsFirstIsFree(lo: nat, hi: nat, bs: seq<Option<nat>>)
    requires GapsFirst(bs)
    ensures Free(lo, hi, bs) == 0
  {
    if bs != [] {
      var init := bs[..|bs| - 1];
      GapsFirstIsFree(lo, hi, init);
      if init != [] && bs[|bs| - 1].None? {
        assert init[|init| - 1].None?;
      }
    }
  }

  /** The run that sees the estimate `b` wherever `bs` has one. */
  function Constant(bs: seq<Option<nat>>, b: nat): (cs: seq<Option<nat>>)
    ensures SameGaps(bs, cs)
    ensures forall i :: 0 <= i < |cs| && cs[i].Some? ==> cs[i].value == b
  {
    seq(|bs|, i requires 0 <= i < |bs| => if bs[i].None? then None else Some(b))
  }

  lemma {:induction false} ConstantVariation(bs: seq<Option<nat>>, b: nat)
    requires forall i :: 0 <= i < |bs| && bs[i].Some? ==> bs[i].value == b
    ensures forall i :: 0 <= i < |Present(bs)| ==> Present(bs)[i] == b
    ensures Variation(Present(bs)) == 0
  {
    if bs != [] {
      ConstantVariation(bs[..|bs| - 1], b);
      if bs[|bs| - 1].Some? {
        assert Present(bs)[..|Present(bs)| - 1] == Present(bs[..|bs| - 1]);
      } else {
        assert Present(bs) == Present(bs[..|bs| - 1]);
      }
    }
  }

  /** A gap right after a low estimate lifts the cap. */
  lemma {:induction false} GapUncaps(lo: nat, hi: nat, bs: seq<Option<nat>>, i: nat, b: nat)
    requires 0 < i < |bs| && bs[i - 1] == Some(b) && bs[i].None? && b < Entry(lo, hi)
    ensures Uncaps(lo, hi, MAX, bs) > 0
  {
    hide NextCap, Entry;
    var init := bs[..|bs| - 1];
    if i < |init| {
      GapUncaps(lo, hi, init, i, b);
    } else {
      var cap := CapAfter(lo, hi, MAX, init[..|init| - 1]);
      Rails(lo, hi);
      TogglesAtRails(lo, hi, cap, b);
      assert init[|init| - 1] == Some(b);
      assert CapAfter(lo, hi, MAX, init) == NextCap(lo, hi, cap, Some(b)) != MAX;
      NoneUncaps(lo, hi, CapAfter(lo, hi, MAX, init));
    }
  }

  lemma EntryZero(lo: nat, hi: nat)
    ensures Entry(lo, hi) == 0 <==> lo == 0 && hi == 0
  {
  }

  lemma {:induction false} NeverCapped(bs: seq<Option<nat>>)
    ensures CapAfter(0, 0, MAX, bs) == MAX && Uncaps(0, 0, MAX, bs) == 0
  {
    if bs != [] {
      NeverCapped(bs[..|bs| - 1]);
    }
  }

  /** The uncorrected bound holds, for all estimates that come with the gaps of `bs`, if and only if
      the gaps precede every estimate (or the rails never cap at all). */
  lemma {:induction false} BoundedIff(lo: nat, hi: nat, bs: seq<Option<nat>>)
    ensures (forall cs :: SameGaps(bs, cs) ==> Bounded(lo, hi, cs)) <==> GapsFirst(bs) || (lo == 0 && hi == 0)
  {
    hide NextCap, CapAfter, Uncaps, Variation, Present, Entry;
    EntryZero(lo, hi);
    if GapsFirst(bs) {
      forall cs | SameGaps(bs, cs)
        ensures Bounded(lo, hi, cs)
      {
        assert GapsFirst(cs);
        GapsFirstIsFree(lo, hi, cs);
        UncapBound(lo, hi, cs);
      }
    } else if lo == 0 && hi == 0 {
      forall cs | SameGaps(bs, cs)
        ensures Bounded(lo, hi, cs)
      {
        NeverCapped(cs);
      }
    } else {
      var i :| 0 < i < |bs| && bs[i].None? && bs[i - 1].Some?;
      var cs := Constant(bs, 0);
      ConstantVariation(cs, 0);
      assert cs[i - 1] == Some(0) && cs[i].None?;
      GapUncaps(lo, hi, cs, i, 0);
      assert !Bounded(lo, hi, cs);
    }
  }

  // ---- the level --------------------------------------------------------------------------------

  /** From the estimate `i` on, which is below `rail`, every estimate is there and below the exit rail. */
  ghost predicate DownFrom(lo: nat, hi: nat, bs: seq<Option<nat>>, rail: nat, i: int) {
    && 0 <= i < |bs| && bs[i].Some? && bs[i].value < rail
    && forall k :: i < k < |bs| ==> bs[k].Some? && bs[k].value < Exit(lo, hi)
  }

  ghost predicate Down(lo: nat, hi: nat, bs: seq<Option<nat>>, rail: nat) {
    exists i :: DownFrom(lo, hi, bs, rail, i)
  }

  /** One more estimate, for a rail that is not above the exit. */
  lemma {:induction false} DownSnoc(lo: nat, hi: nat, bs: seq<Option<nat>>, rail: nat)
    requires bs != [] && rail <= Exit(lo, hi)
    ensures var init, b := bs[..|bs| - 1], bs[|bs| - 1];
            Down(lo, hi, bs, rail) <==>
              b.Some? && (b.value < rail || (b.value < Exit(lo, hi) && Down(lo, hi, init, rail)))
  {
    hide Exit;
    var n := |bs| - 1;
    var init := bs[..n];
    if i :| DownFrom(lo, hi, bs, rail, i) {
      if i < n {
        assert bs[n].Some? && bs[n].value < Exit(lo, hi);
        assert DownFrom(lo, hi, init, rail, i);
      }
    }
    if bs[n].Some? && bs[n].value < rail {
      assert DownFrom(lo, hi, bs, rail, n);
    }
    if bs[n].Some? && bs[n].value < Exit(lo, hi) && Down(lo, hi, init, rail) {
      var i :| DownFrom(lo, hi, init, rail, i);
      assert DownFrom(lo, hi, bs, rail, i);
    }
  }

  lemma NoneDown(lo: nat, hi: nat, rail: nat)
    ensures !Down(lo, hi, [], rail)
  {
  }

  /** The level is fixed by the estimates alone: 0 if and only if one was below the lower rail, 1 if
      and only if one was below the entry rail but none below the lower rail, each with nothing but
      estimates below the exit rail since; otherwise there is no cap. */
  lemma {:induction false} CapLevel(lo: nat, hi: nat, bs: seq<Option<nat>>)
    ensures var cap := CapAfter(lo, hi, MAX, bs);
            && (cap == 0 <==> Down(lo, hi, bs, lo))
            && (cap == 1 <==> Down(lo, hi, bs, Entry(lo, hi)) && !Down(lo, hi, bs, lo))
            && (cap == MAX <==> !Down(lo, hi, bs, Entry(lo, hi)))
  {
    hide Down;
    LowerRail(lo, hi);
    if bs == [] {
      NoneDown(lo, hi, lo);
      NoneDown(lo, hi, Entry(lo, hi));
    } else {
      CapLevel(lo, hi, bs[..|bs| - 1]);
      DownSnoc(lo, hi, bs, lo);
      DownSnoc(lo, hi, bs, Entry(lo, hi));
    }
  }

  lemma LowerRail(lo: nat, hi: nat)
    ensures lo <= Entry(lo, hi) <= Exit(lo, hi)
  {
  }

  /** Only three caps are ever reached, and 0 is left only towards no cap at all. */
  lemma {:induction false} ReachableCaps(lo: nat, hi: nat, bs: seq<Option<nat>>)
    ensures CapAfter(lo, hi, MAX, bs) in {0, 1, 255}
    ensures bs != [] && CapAfter(lo, hi, MAX, bs[..|bs| - 1]) == 0 ==> CapAfter(lo, hi, MAX, bs) in {0, 255}
  {
    if bs != [] {
      ReachableCaps(lo, hi, bs[..|bs| - 1]);
    }
  }

  /** Estimates ordered with "no estimate" on top. */
  predicate Below(a: Option<nat>, b: Option<nat>) {
    b.None? || (a.Some? && a.value <= b.value)
  }

  lemma NextCapMonotone(lo: nat, hi: nat, c: Cap, d: Cap, a: Option<nat>, b: Option<nat>)
    requires c <= d && Below(a, b)
    ensures NextCap(lo, hi, c, a) <= NextCap(lo, hi, d, b)
  {
  }

  /** Larger estimates from a larger cap give a larger cap, at every point of the run and for
      any rails. */
  lemma {:induction false} RunMonotone(lo: nat, hi: nat, c: Cap, d: Cap, as_: seq<Option<nat>>, bs: seq<Option<nat>>)
    requires c <= d && |as_| == |bs|
    requires forall i :: 0 <= i < |as_| ==> Below(as_[i], bs[i])
    ensures CapAfter(lo, hi, c, as_) <= CapAfter(lo, hi, d, bs)
  {
    if as_ != [] {
      var n := |as_| - 1;
      RunMonotone(lo, hi, c, d, as_[..n], bs[..n]);
      NextCapMonotone(lo, hi, CapAfter(lo, hi, c, as_[..n]), CapAfter(lo, hi, d, bs[..n]), as_[n], bs[n]);
    }
  }

  /** A run in which the budget never moves and the cap is lifted twice. */
  lemma MissingEstimatesAreFree()
    ensures var bs := [Some(120000), None, Some(120000), None];
            && Uncaps(100000, 150000, MAX, bs) == Free(100000, 150000, bs) == 2
            && Uncaps(100000, 150000, MAX, bs) * Band(100000, 150000) > Variation(Present(bs)) == 0
  {
    var b0: seq<Option<nat>> := [];
    var b1: seq<Option<nat>> := [Some(120000)];
    var b2: seq<Option<nat>> := [Some(120000), None];
    var b3: seq<Option<nat>> := [Some(120000), None, Some(120000)];
    var b4: seq<Option<nat>> := [Some(120000), None, Some(120000), None];
    assert b1[..0] == b0 && b2[..1] == b1 && b3[..2] == b2 && b4[..3] == b3;
    assert CapAfter(100000, 150000, MAX, b1) == 1 && CapAfter(100000, 150000, MAX, b2) == MAX;
    assert CapAfter(100000, 150000, MAX, b3) == 1 && CapAfter(100000, 150000, MAX, b4) == MAX;
    assert Uncaps(100000, 150000, MAX, b2) == 1 && Free(100000, 150000, b2) == 1;
    ConstantVariation(b4, 120000);
  }
}
