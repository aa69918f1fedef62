/**
 The two patterns of the validator, read piece by piece, and the checks that stand for them.
 */
module TenantFormats {
  import opened Text
  import opened Tenants

  predicate Over(s: string, alphabet: string) {
    forall i :: 0 <= i < |s| ==> s[i] in alphabet
  }

  /** A tenant id: one character, one to thirty in between, and one at the end. */
  ghost predicate MatchesId(s: string) {
    exists head, middle, last :: s == head + middle + last && IdParts(head, middle, last)
  }

  predicate IdParts(head: string, middle: string, last: string) {
    && |head| == 1 && Over(head, LOWER + DIGITS)
    && 1 <= |middle| <= 30 && Over(middle, LOWER + DIGITS + "-")
    && |last| == 1 && Over(last, LOWER + DIGITS)
  }

  /** A domain: labels that each end in a dot, at least one, and a top-level name of two letters or more. */
  ghost predicate MatchesDomain(s: string) {
    exists labels, top :: s == Dotted(labels) + top && DomainParts(labels, top)
  }

  ghost predicate DomainParts(labels: seq<string>, top: string) {
    && labels != [] && (forall i :: 0 <= i < |labels| ==> MatchesLabel(labels[i]))
    && |top| >= 2 && Over(top, LOWER + UPPER)
  }

  function Dotted(labels: seq<string>): string {
    if labels == [] then "" else labels[0] + "." + Dotted(labels[1..])
  }

  /** One character, or two with any run of characters and hyphens in between. */
  ghost predicate MatchesLabel(s: string) {
    || (|s| == 1 && Over(s, LOWER + UPPER + DIGITS))
    || (exists head, middle, last :: s == head + middle + last && LabelParts(head, middle, last))
  }

  predicate LabelParts(head: string, middle: string, last: string) {
    && |head| == 1 && Over(head, LOWER + UPPER + DIGITS)
    && Over(middle, LOWER + UPPER + DIGITS + "-")
    && |last| == 1 && Over(last, LOWER + UPPER + DIGITS)
  }

  // ---- alphabets --------------------------------------------------------------------------------

  lemma {:induction false} IdAlphabet(s: string)
    ensures Over(s, LOWER + DIGITS) <==> forall i :: 0 <= i < |s| ==> LowerOrDigit(s[i])
    ensures Over(s, LOWER + DIGITS + "-") <==> forall i :: 0 <= i < |s| ==> LowerOrDigit(s[i]) || s[i] == '-'
  {
    forall i | 0 <= i < |s|
      ensures s[i] in LOWER + DIGITS <==> LowerOrDigit(s[i])
      ensures s[i] in LOWER + DIGITS + "-" <==> LowerOrDigit(s[i]) || s[i] == '-'
    {
      InLower(s[i]);
      InDigits(s[i]);
    }
  }

  lemma {:induction false} LabelAlphabet(s: string)
    ensures Over(s, LOWER + UPPER) <==> forall i :: 0 <= i < |s| ==> Letter(s[i])
    ensures Over(s, LOWER + UPPER + DIGITS) <==> forall i :: 0 <= i < |s| ==> Letter(s[i]) || IsDigit(s[i])
    ensures Over(s, LOWER + UPPER + DIGITS + "-") <==>
            forall i :: 0 <= i < |s| ==> Letter(s[i]) || IsDigit(s[i]) || s[i] == '-'
  {
    forall i | 0 <= i < |s|
      ensures s[i] in LOWER + UPPER <==> Letter(s[i])
      ensures s[i] in LOWER + UPPER + DIGITS <==> Letter(s[i]) || IsDigit(s[i])
      ensures s[i] in LOWER + UPPER + DIGITS + "-" <==> Letter(s[i]) || IsDigit(s[i]) || s[i] == '-'
    {
      InLower(s[i]);
      InUpper(s[i]);
      InDigits(s[i]);
    }
  }

  // ---- tenant ids -------------------------------------------------------------------------------

  /** The id check accepts exactly what the pattern matches. */
  lemma {:induction false} IdIsPattern(s: string)
    ensures IsTenantId(s) <==> MatchesId(s)
  {
    hide Over;
    if IsTenantId(s) {
      var head, middle, last := s[..1], s[1..|s| - 1], s[|s| - 1..];
      assert s == head + middle + last;
      IdAlphabet(head);
      IdAlphabet(middle);
      IdAlphabet(last);
      assert IdParts(head, middle, last);
    }
    if MatchesId(s) {
      var head, middle, last :| s == head + middle + last && IdParts(head, middle, last);
      IdAlphabet(head);
      IdAlphabet(middle);
      IdAlphabet(last);
    }
  }

  // ---- domains ----------------------------------------------------------------------------------

  lemma {:induction false} OneCharacter(s: string)
    requires |s| == 1
    ensures IsLabel(s) <==> forall i :: 0 <= i < |s| ==> Letter(s[i]) || IsDigit(s[i])
  {
    assert s[0] == s[|s| - 1];
  }

  lemma {:induction false} CutLabel(s: string)
    requires IsLabel(s) && |s| != 1
    ensures MatchesLabel(s)
  {
    hide Over;
    var head, middle, last := s[..1], s[1..|s| - 1], s[|s| - 1..];
    assert s == head + middle + last;
    LabelAlphabet(head);
    LabelAlphabet(middle);
    LabelAlphabet(last);
    assert LabelParts(head, middle, last);
  }

  lemma {:induction false} LabelOf(head: string, middle: string, last: string)
    requires LabelParts(head, middle, last)
    ensures IsLabel(head + middle + last)
  {
    hide Over;
    LabelAlphabet(head);
    LabelAlphabet(middle);
    LabelAlphabet(last);
  }

  lemma {:induction false} LabelIsPattern(s: string)
    ensures IsLabel(s) <==> MatchesLabel(s)
  {
    hide Over, LabelParts, IsLabel;
    if |s| == 1 {
      LabelAlphabet(s);
      OneCharacter(s);
    } else if IsLabel(s) {
      CutLabel(s);
    }
    forall head, middle, last | s == head + middle + last && LabelParts(head, middle, last)
      ensures IsLabel(s)
    {
      LabelOf(head, middle, last);
    }
  }

  lemma {:induction false} DottedIsJoin(labels: seq<string>, top: string)
    ensures Dotted(labels) + top == Join(labels + [top], '.')
  {
    if labels == [] {
      assert labels + [top] == [top];
    } else {
      assert (labels + [top])[1..] == labels[1..] + [top];
      DottedIsJoin(labels[1..], top);
      Assoc(labels[0] + ".", Dotted(labels[1..]), top);
    }
  }

  lemma {:induction false} LabelsAre(labels: seq<string>)
    ensures forall i :: 0 <= i < |labels| ==> (IsLabel(labels[i]) <==> MatchesLabel(labels[i]))
    ensures forall i :: 0 <= i < |labels| && IsLabel(labels[i]) ==> '.' !in labels[i]
  {
    forall i | 0 <= i < |labels|
      ensures IsLabel(labels[i]) <==> MatchesLabel(labels[i])
    {
      LabelIsPattern(labels[i]);
    }
    hide MatchesLabel;
  }

  /** The domain check accepts exactly what the pattern matches. */
  lemma {:induction false} DomainIsPattern(s: string)
    ensures IsDomain(s) <==> MatchesDomain(s)
  {
    hide Over, IsLabel, MatchesLabel, Join, Dotted;
    if IsDomain(s) {
      var parts := Split(s, '.');
      var labels, top := parts[..|parts| - 1], parts[|parts| - 1];
      assert parts == labels + [top];
      DottedIsJoin(labels, top);
      LabelsAre(labels);
      LabelAlphabet(top);
      assert DomainParts(labels, top);
    }
    if MatchesDomain(s) {
      var labels, top :| s == Dotted(labels) + top && DomainParts(labels, top);
      DottedIsJoin(labels, top);
      LabelsAre(labels);
      LabelAlphabet(top);
      assert '.' !in top;
      SplitOfJoin(labels + [top], '.');
    }
  }
}
