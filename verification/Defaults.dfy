/**
 The client-side defaults: drawn once per process start, inside fixed bands, and therefore
 accepted by the validators of their own rows.
 */
module Defaults {
  import opened Common
  import opened Text
  import opened Params
  import opened FieldSpecs
  import opened MergeStability

  ghost predicate InBand(d: ClientDefaults) {
    && 3 <= d.jc <= 6
    && 40 <= d.jmin <= 89
    && 50 <= d.jmax - d.jmin <= 250
    && (exists n: nat :: 32 <= n <= 256 && d.i1 == TagOf(n))
    && (exists lo: nat, hi: nat :: 8 <= lo <= 24 && 8 <= hi - lo <= 40 && d.contentPaddingAddition == RangeOf(lo, hi))
  }

  function TagOf(n: nat): string {
    "<r " + Digits(n) + ">"
  }

  function RangeOf(lo: nat, hi: nat): string {
    Digits(lo) + "-" + Digits(hi)
  }

  /** `rand_inclusive`: a 64-bit draw reduced modulo the span. */
  function RandInclusive(lo: int, hi: int, draw: nat): (r: int)
    requires lo <= hi
    ensures lo <= r <= hi
  {
    lo + draw % (hi - lo + 1)
  }

  lemma EveryValue(lo: int, hi: int, v: int)
    requires lo <= v <= hi
    ensures RandInclusive(lo, hi, v - lo) == v
  {
  }

  /** The defaults of six draws. */
  function Drawn(t: seq<nat>): ClientDefaults
    requires |t| == 6
  {
    var jmin := RandInclusive(40, 89, t[1]);
    var lo := RandInclusive(8, 24, t[3]);
    ClientDefaults(TagOf(RandInclusive(32, 256, t[5])), RangeOf(lo, lo + RandInclusive(8, 40, t[4])),
                   RandInclusive(3, 6, t[0]), jmin, jmin + RandInclusive(50, 250, t[2]))
  }

  /** The bands are exactly what can be drawn. */
  lemma {:induction false} BandIsDrawn(d: ClientDefaults)
    ensures InBand(d) <==> exists t :: |t| == 6 && Drawn(t) == d
  {
    hide TagOf, RangeOf, RandInclusive;
    if InBand(d) {
      var n: nat :| 32 <= n <= 256 && d.i1 == TagOf(n);
      var lo: nat, hi: nat :| 8 <= lo <= 24 && 8 <= hi - lo <= 40 && d.contentPaddingAddition == RangeOf(lo, hi);
      var t: seq<nat> := [d.jc - 3, d.jmin - 40, d.jmax - d.jmin - 50, lo - 8, hi - lo - 8, n - 32];
      EveryValue(3, 6, d.jc);
      EveryValue(40, 89, d.jmin);
      EveryValue(50, 250, d.jmax - d.jmin);
      EveryValue(8, 24, lo);
      EveryValue(8, 40, hi - lo);
      EveryValue(32, 256, n);
      assert Drawn(t) == d;
    }
    forall t | |t| == 6 && Drawn(t) == d
      ensures InBand(d)
    {
      DrawnInBand(t);
    }
  }

  lemma {:induction false} DrawnInBand(t: seq<nat>)
    requires |t| == 6
    ensures InBand(Drawn(t))
  {
    hide TagOf, RangeOf, RandInclusive;
    var lo: nat, n: nat := RandInclusive(8, 24, t[3]), RandInclusive(32, 256, t[5]);
    var hi: nat := lo + RandInclusive(8, 40, t[4]);
    assert Drawn(t).i1 == TagOf(n) && Drawn(t).contentPaddingAddition == RangeOf(lo, hi);
  }

  /** `ClientDefaults::generate` from the values the entropy source returns, `None` being a
      failed draw; the draws are consumed in order and the first failure ends it. */
  method Generate(draws: seq<Option<nat>>) returns (r: Option<ClientDefaults>)
    requires |draws| == 6
    ensures r.Some? <==> forall i :: 0 <= i < 6 ==> draws[i].Some?
    ensures r.Some? ==> InBand(r.value)
    ensures r.Some? ==>
              exists t :: |t| == 6 && (forall i :: 0 <= i < 6 ==> draws[i] == Some(t[i])) && r.value == Drawn(t)
  {
    var taken: seq<nat> := [];
    while |taken| < 6
      invariant |taken| <= 6
      invariant forall i :: 0 <= i < |taken| ==> draws[i] == Some(taken[i])
    {
      if draws[|taken|].None? {
        return None;
      }
      taken := taken + [draws[|taken|].value];
    }
    var jc := RandInclusive(3, 6, taken[0]);
    var jmin := RandInclusive(40, 89, taken[1]);
    var jmax := jmin + RandInclusive(50, 250, taken[2]);
    var lo: nat := RandInclusive(8, 24, taken[3]);
    var hi: nat := lo + RandInclusive(8, 40, taken[4]);
    var n: nat := RandInclusive(32, 256, taken[5]);
    r := Some(ClientDefaults(TagOf(n), RangeOf(lo, hi), jc, jmin, jmax));
    assert r.value == Drawn(taken);
    DrawnInBand(taken);
  }

  lemma {:induction false} TagPiece(n: nat) returns (tag: Piece)
    requires n <= 65535
    ensures tag.Tag? && PieceOk(tag) && Spell(tag) == TagOf(n)
  {
    hide ParseU64, Digits, HexArgOk;
    tag := Tag("r", Some(Digits(n)));
    ParseU64OfDigits(n);
    DigitsOnly(n);
    assert "<" + "r" + " " == "<r ";
  }

  lemma {:induction false} DigitsOnly(n: nat)
    ensures '>' !in Digits(n) && '-' !in Digits(n)
    ensures forall i :: 0 <= i < |Digits(n)| ==> !ForbiddenChar(Digits(n)[i])
  {
    hide Digits;
  }

  lemma {:induction false} TagOfClean(n: nat)
    ensures ConfStringOk(TagOf(n))
  {
    hide Digits;
    DigitsOnly(n);
  }

  lemma {:induction false} TagOfOk(n: nat)
    requires n <= 65535
    ensures ITagOk(TagOf(n))
  {
    hide Scan, PieceOk, Spell, TagOf, ConfStringOk, ITagOk;
    var tag := TagPiece(n);
    TagOfClean(n);
    SentenceCons(tag, [], "");
    assert ([tag] + [])[0].Tag?;
    assert Spell(tag) + "" == TagOf(n);
    ITagIsGrammar(TagOf(n));
  }

  lemma {:induction false} RangeOfOk(lo: nat, hi: nat)
    requires lo <= hi <= 65535
    ensures RangeStringOk(RangeOf(lo, hi))
  {
    hide ParseU64, Digits, SplitOnce;
    ParseU64OfDigits(lo);
    ParseU64OfDigits(hi);
    DigitsOnly(lo);
    DigitsOnly(hi);
    SplitOnceUnique(Digits(lo), '-', Digits(hi));
    RangeOfClean(lo, hi);
  }

  lemma {:induction false} RangeOfClean(lo: nat, hi: nat)
    ensures ConfStringOk(RangeOf(lo, hi))
  {
    hide Digits;
    DigitsOnly(lo);
    DigitsOnly(hi);
  }

  /** Defaults drawn in band pass their own validators, so none of them is ever omitted. */
  lemma {:induction false} InBandPass(d: ClientDefaults)
    requires InBand(d)
    ensures DefaultsPass(d)
  {
    hide ITagOk, RangeStringOk, TagOf, RangeOf;
    var n: nat :| 32 <= n <= 256 && d.i1 == TagOf(n);
    var lo: nat, hi: nat :| 8 <= lo <= 24 && 8 <= hi - lo <= 40 && d.contentPaddingAddition == RangeOf(lo, hi);
    TagOfOk(n);
    RangeOfOk(lo, hi);
  }
}
