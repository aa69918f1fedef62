/**
 Small confs on which a merge fails, built line by line.
 */
module ConfWitnesses {
  import opened Common
  import opened Text
  import opened FieldSpecs
  import opened ConfMerge
  import opened MergeStability
  import opened TopUps
  import opened Defaults

  const HEADER := "[Interface]"

  /** An interface section with the given lines. */
  function Section(ls: seq<string>): string {
    Join([HEADER] + ls, '\n')
  }

  ghost predicate HasSection(conf: string) {
    HeaderIndex(Split(conf, '\n')) < |Split(conf, '\n')|
  }

  lemma {:induction false} SectionLines(ls: seq<string>)
    requires forall i :: 0 <= i < |ls| ==> '\n' !in ls[i]
    ensures Split(Section(ls), '\n') == [HEADER] + ls
    ensures HasSection(Section(ls))
  {
    SplitOfJoin([HEADER] + ls, '\n');
  }

  /** The header carries no value. */
  lemma {:induction false} BehindHeader(k: Key, ls: seq<string>)
    ensures ConfRaw(k, [HEADER] + ls) == ConfRaw(k, ls)
    ensures ConfValue(k, [HEADER] + ls) == ConfValue(k, ls)
  {
    hide Matches, Owner;
    HeaderUnowned(HEADER);
    assert !Matches(k, HEADER);
    assert ([HEADER] + ls)[1..] == ls;
  }

  /** A rendered line carries its own key and no other. */
  lemma {:induction false} AtLine(k: Key, v: FieldValue, rest: seq<string>)
    ensures ConfRaw(k, [Render(k, v)] + rest) == Some(SkipBlanks(ShowValue(v)))
    ensures ConfValue(k, [Render(k, v)] + rest) == ParseConf(k, ShowValue(v))
    ensures forall j :: j != k ==> ConfRaw(j, [Render(k, v)] + rest) == ConfRaw(j, rest)
    ensures forall j :: j != k ==> ConfValue(j, [Render(k, v)] + rest) == ConfValue(j, rest)
  {
    hide Matches, Owner, Render, Capture, ParseConf, SkipBlanks, TrimLeft, TrimRight, ShowValue;
    var line := Render(k, v);
    RenderMatches(k, v);
    assert ([line] + rest)[1..] == rest;
    assert forall j :: Matches(j, line) <==> j == k;
    TrimAfterBlanks(ShowValue(v));
    ParseTrimmed(k, SkipBlanks(ShowValue(v)), ShowValue(v));
  }

  lemma {:induction false} ShownInt(k: Key, n: int)
    requires KindOf(k).JunkCount? && I64_MIN <= n <= I64_MAX
    ensures ParseConf(k, ShowValue(Int(n))) == Some(Int(n))
    ensures '\n' !in Render(k, Int(n))
  {
    hide ParseI64, TrimLeft, TrimRight, Name;
    ParseOfShow(n);
    TrimFixed(Show(n));
    NameClean(k);
  }

  /** With the lower junk bound `n` alone in the conf, a top-up fails whenever the default drawn for
      the upper bound is smaller. */
  lemma {:induction false} OneBound(n: int, d: ClientDefaults)
    requires DefaultsPass(d) && d.jmax < n <= I64_MAX
    ensures Merge(Section([Render(Jmin, Int(n))]), None, d).Err?
  {
    hide Split, Section, Merge, Render, ShowValue, ParseConf, ConfRaw, ConfValue, DefaultsPass, HeaderIndex,
         CheckMustMatch,
         WireOfConf;
    UpperDefault(d);
    var line := Render(Jmin, Int(n));
    var conf := Section([line]);
    ShownInt(Jmin, n);
    SectionLines([line]);
    assert [line] + [] == [line];
    BehindHeader(Jmin, [line]);
    BehindHeader(Jmax, [line]);
    AtLine(Jmin, Int(n), []);
    NoLines(Jmax);
    TopUpVerdict(conf, d);
  }

  lemma UpperDefault(d: ClientDefaults)
    requires DefaultsPass(d)
    ensures d.jmax >= 0
  {
    assert DefaultOf(Jmax, d) == Some(Int(d.jmax));
    assert Valid(Jmax, Int(d.jmax));
  }

  lemma NoLines(k: Key)
    ensures ConfRaw(k, []) == None && ConfValue(k, []) == None
  {
  }

  /** A conf on which the top-up fails whatever defaults are drawn. */
  lemma {:induction false} TopUpFails(d: ClientDefaults)
    requires InBand(d)
    ensures Merge("[Interface]\nJmin = 1000", None, d).Err?
  {
    hide Merge;
    InBandPass(d);
    OneBound(1000, d);
    Thousand();
    TwoLines(HEADER, "Jmin = 1000");
    assert HEADER + ['\n'] + "Jmin = 1000" == "[Interface]\nJmin = 1000";
  }

  lemma TwoLines(a: string, b: string)
    ensures Join([a] + [b], '\n') == a + ['\n'] + b
  {
    var ls := [a] + [b];
    assert ls[1..] == [b];
    assert Join([b], '\n') == b;
  }

  lemma Thousand()
    ensures Render(Jmin, Int(1000)) == "Jmin = 1000"
  {
    assert Digits(1) == "1";
    assert Digits(10) == "10";
    assert Digits(100) == "100";
    assert Digits(1000) == "1000";
  }
}
