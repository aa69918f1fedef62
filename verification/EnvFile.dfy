/**
 The env file of the registration step: ten `KEY='value'` lines that a shell sources. The
 reader below is the shell's: backslash and single quotes as in sections 2.2.1 and 2.2.2 of
 the POSIX Shell Command Language, and a refusal of anything else a word could mean.
 */
module EnvFile {
  import opened Common
  import opened Text

  datatype Response = Response(
    nodeId: string, backendEndpoint: string, turnSecret: string, realityUuid: string,
    realityPublicKey: string, realityShortId: string, realityServerName: string,
    realityEncryption: string, relayJwtSecret: Option<string>, turnsSubdomain: string)

  type Pair = (string, string)

  /** The ten pairs, in file order; an absent secret is the empty string. */
  function Pairs(r: Response): (ps: seq<Pair>)
    ensures |ps| == 10
  {
    [ ("NODE_ID", r.nodeId),
      ("BACKEND_ENDPOINT", r.backendEndpoint),
      ("TURN_SECRET", r.turnSecret),
      ("REALITY_UUID", r.realityUuid),
      ("REALITY_PUBLIC_KEY", r.realityPublicKey),
      ("REALITY_SHORT_ID", r.realityShortId),
      ("REALITY_SERVER_NAME", r.realityServerName),
      ("REALITY_ENCRYPTION", r.realityEncryption),
      ("RELAY_JWT_SECRET", if r.relayJwtSecret.Some? then r.relayJwtSecret.value else ""),
      ("TURNS_SUBDOMAIN", r.turnsSubdomain) ]
  }

  // ---- writing ----------------------------------------------------------------------------

  /** `validate_env_value`: no line feed and no carriage return. */
  predicate ValueOk(v: string) {
    '\n' !in v && '\r' !in v
  }

  /** Each single quote becomes close-quote, escaped quote, reopen. */
  function Escape(v: string): string {
    if v == "" then ""
    else (if v[0] == '\'' then "'\\''" else [v[0]]) + Escape(v[1..])
  }

  function Line(p: Pair): string {
    p.0 + "='" + Escape(p.1) + "'\n"
  }

  function Content(ps: seq<Pair>): string {
    if ps == [] then "" else Content(ps[..|ps| - 1]) + Line(ps[|ps| - 1])
  }

  /** The name of the first pair whose value is refused. */
  function FirstBad(ps: seq<Pair>): Option<string> {
    if ps == [] then None
    else if !ValueOk(ps[0].1) then Some(ps[0].0)
    else FirstBad(ps[1..])
  }

  /** `str::replace` of the quote, as a loop. */
  method EscapeLoop(v: string) returns (out: string)
    ensures out == Escape(v)
  {
    out := "";
    var i := 0;
    while i < |v|
      invariant 0 <= i <= |v|
      invariant out + Escape(v[i..]) == Escape(v)
    {
      var piece := if v[i] == '\'' then "'\\''" else [v[i]];
      assert v[i..][0] == v[i] && v[i..][1..] == v[i + 1..];
      Assoc(out, piece, Escape(v[i + 1..]));
      out := out + piece;
      i := i + 1;
    }
    assert v[i..] == "";
  }

  class EnvStore {
    var file: Option<string>

    constructor ()
      ensures file == None
    {
      file := None;
    }

    /** `write_env_file`: all ten values are checked before the file is replaced; on a refusal
        the file is untouched and the refused name is returned. */
    method Write(r: Response) returns (refused: Option<string>)
      modifies this
      ensures refused == FirstBad(Pairs(r))
      ensures refused.Some? ==> file == old(file)
      ensures refused.None? ==> file == Some(Content(Pairs(r)))
    {
      hide Escape, ValueOk, Pairs;
      var pairs := Pairs(r);
      var content := "";
      var n := 0;
      assert pairs[0..] == pairs;
      while n < |pairs|
        invariant 0 <= n <= |pairs|
        invariant content == Content(pairs[..n])
        invariant FirstBad(pairs) == FirstBad(pairs[n..])
        invariant file == old(file)
      {
        assert pairs[n..][1..] == pairs[n + 1..];
        var (k, v) := pairs[n];
        if !ValueOk(v) {
          return Some(k);
        }
        var escaped := EscapeLoop(v);
        assert pairs[..n + 1][..n] == pairs[..n];
        content := content + (k + "='" + escaped + "'\n");
        n := n + 1;
      }
      assert pairs[..n] == pairs;
      file := Some(content);
      return None;
    }
  }

  // ---- reading as a shell does ----------------------------------------------------------------

  /** Characters that mean something to the shell outside quotes. */
  predicate Special(c: char) {
    c in {'|', '&', ';', '<', '>', '(', ')', '$', '`', '"', ' ', '\t',
          '*', '?', '[', ']', '#', '~', '=', '%', '!', '{', '}'}
  }

  /** The rest of a word, outside quotes: its value and what follows the line's end. */
  function ReadWord(s: string): (r: Option<(string, string)>)
    ensures r.Some? && s != "" ==> |r.value.1| < |s|
    decreases |s|
  {
    if s == "" then Some(("", ""))
    else if s[0] == '\n' then Some(("", s[1..]))
    else if s[0] == '\'' then ReadQuoted(s[1..])
    else if s[0] == '\\' then
      if |s| < 2 then None
      else if s[1] == '\n' then ReadWord(s[2..])
      else Prepend(s[1], ReadWord(s[2..]))
    else if Special(s[0]) then None
    else Prepend(s[0], ReadWord(s[1..]))
  }

  /** The rest of a word, inside single quotes: every character up to the closing quote is
      literal. */
  function ReadQuoted(s: string): (r: Option<(string, string)>)
    ensures r.Some? ==> |r.value.1| < |s|
    decreases |s|
  {
    if s == "" then None
    else if s[0] == '\'' then ReadWord(s[1..])
    else Prepend(s[0], ReadQuoted(s[1..]))
  }

  function Prepend(c: char, r: Option<(string, string)>): Option<(string, string)> {
    if r.Some? then Some(([c] + r.value.0, r.value.1)) else None
  }

  predicate IsName(s: string) {
    && s != ""
    && !IsDigit(s[0])
    && forall i :: 0 <= i < |s| ==> 'A' <= s[i] <= 'Z' || 'a' <= s[i] <= 'z' || s[i] == '_' || IsDigit(s[i])
  }

  /** Every assignment of a sourced file, or nothing if any of it is not a plain assignment. */
  function ReadFile(s: string): Option<seq<Pair>>
    decreases |s|
  {
    if s == "" then Some([])
    else
      var i := Find(s, '=');
      if i == |s| || !IsName(s[..i]) then None
      else
        match ReadWord(s[i + 1..])
        case None => None
        case Some((value, rest)) =>
          match ReadFile(rest)
          case None => None
          case Some(more) => Some([(s[..i], value)] + more)
  }

  /** A shell variable cannot hold a NUL, so no reading is defined for a file that contains one. */
  function Sourced(s: string): Option<seq<Pair>> {
    if '\0' in s then None else ReadFile(s)
  }

  // ---- the round trip ---------------------------------------------------------------------------

  lemma {:induction false} QuotedValue(v: string, rest: string)
    ensures ReadQuoted(Escape(v) + ("'\n" + rest)) == Some((v, rest))
  {
    var tail := "'\n" + rest;
    if v == "" {
      assert Escape(v) + tail == tail;
      assert tail[1..] == "\n" + rest;
      assert ("\n" + rest)[1..] == rest;
    } else {
      QuotedValue(v[1..], rest);
      var more := Escape(v[1..]) + tail;
      if v[0] == '\'' {
        Assoc("'\\''", Escape(v[1..]), tail);
        QuoteInside(more);
      } else {
        Assoc([v[0]], Escape(v[1..]), tail);
        assert ([v[0]] + more)[1..] == more;
      }
      assert [v[0]] + v[1..] == v;
    }
  }

  /** The escaped quote reads as one quote character and stays inside the quotes. */
  lemma {:induction false} QuoteInside(more: string)
    ensures ReadQuoted("'\\''" + more) == Prepend('\'', ReadQuoted(more))
  {
    var s := "'\\''" + more;
    assert s[1..] == "\\''" + more;
    assert s[1..][2..] == "'" + more;
    assert s[1..][2..][1..] == more;
    assert ReadWord(s[1..][2..]) == ReadQuoted(more);
    assert ReadWord(s[1..]) == Prepend('\'', ReadWord(s[1..][2..]));
  }

  lemma {:induction false} ReadLine(p: Pair, rest: string)
    requires IsName(p.0)
    ensures ReadFile(Line(p) + rest) ==
            match ReadFile(rest) case None => None case Some(more) => Some([p] + more)
  {
    hide Escape;
    var s := Line(p) + rest;
    var quoted := Escape(p.1) + ("'\n" + rest);
    assert s == p.0 + ['='] + ("'" + quoted) by {
      LineShape(p, rest);
    }
    FindUnique(p.0, '=', "'" + quoted);
    assert s[..|p.0|] == p.0 && s[|p.0| + 1..] == "'" + quoted;
    assert ("'" + quoted)[1..] == quoted;
    QuotedValue(p.1, rest);
    assert ReadWord(s[|p.0| + 1..]) == Some((p.1, rest));
    assert p == (p.0, p.1);
  }

  lemma {:induction false} LineShape(p: Pair, rest: string)
    ensures Line(p) + rest == p.0 + ['='] + ("'" + (Escape(p.1) + ("'\n" + rest)))
  {
    hide Escape;
    var e := Escape(p.1);
    assert p.0 + "='" == p.0 + ['='] + "'";
    calc {
      Line(p) + rest;
      (((p.0 + ['='] + "'") + e) + "'\n") + rest;
      { Assoc((p.0 + ['='] + "'") + e, "'\n", rest); }
      ((p.0 + ['='] + "'") + e) + ("'\n" + rest);
      { Assoc(p.0 + ['='] + "'", e, "'\n" + rest); }
      (p.0 + ['='] + "'") + (e + ("'\n" + rest));
      { Assoc(p.0 + ['='], "'", e + ("'\n" + rest)); }
      p.0 + ['='] + ("'" + (e + ("'\n" + rest)));
    }
  }

  lemma {:induction false} ReadContent(ps: seq<Pair>, rest: string)
    requires forall i :: 0 <= i < |ps| ==> IsName(ps[i].0)
    ensures ReadFile(Content(ps) + rest) ==
            match ReadFile(rest) case None => None case Some(more) => Some(ps + more)
  {
    hide ReadFile, Line, IsName;
    if ps == [] {
      assert Content(ps) + rest == rest;
      assert forall more: seq<Pair> :: [] + more == more;
    } else {
      var init, p := ps[..|ps| - 1], ps[|ps| - 1];
      Assoc(Content(init), Line(p), rest);
      ReadContent(init, Line(p) + rest);
      ReadLine(p, rest);
      if ReadFile(rest).Some? {
        var more := ReadFile(rest).value;
        assert init + ([p] + more) == ps + more;
      }
    }
  }

  lemma NamesOne()
    ensures IsName("NODE_ID") && IsName("BACKEND_ENDPOINT") && IsName("TURN_SECRET") && IsName("REALITY_UUID")
  {
  }

  lemma NamesTwo()
    ensures IsName("REALITY_PUBLIC_KEY") && IsName("REALITY_SHORT_ID") && IsName("REALITY_SERVER_NAME")
  {
  }

  lemma NamesThree()
    ensures IsName("REALITY_ENCRYPTION") && IsName("RELAY_JWT_SECRET") && IsName("TURNS_SUBDOMAIN")
  {
  }

  lemma {:induction false} NamesAreNames(r: Response)
    ensures forall i :: 0 <= i < 10 ==> IsName(Pairs(r)[i].0)
  {
    hide IsName;
    NamesOne();
    NamesTwo();
    NamesThree();
  }

  predicate NulFree(ps: seq<Pair>) {
    forall i :: 0 <= i < |ps| ==> '\0' !in ps[i].1
  }

  lemma {:induction false} EscapeNul(v: string)
    ensures '\0' in Escape(v) <==> '\0' in v
  {
    if v != "" {
      EscapeNul(v[1..]);
      assert v == [v[0]] + v[1..];
    }
  }

  lemma {:induction false} ContentNul(ps: seq<Pair>)
    requires forall i :: 0 <= i < |ps| ==> IsName(ps[i].0)
    ensures '\0' in Content(ps) <==> !NulFree(ps)
  {
    hide Escape;
    if ps != [] {
      var n := |ps| - 1;
      ContentNul(ps[..n]);
      EscapeNul(ps[n].1);
      assert '\0' in Line(ps[n]) <==> '\0' in ps[n].1;
      assert NulFree(ps) <==> NulFree(ps[..n]) && '\0' !in ps[n].1;
    }
  }

  /** Sourcing the written file sets exactly the ten variables to exactly the ten values, for
      any mix of quotes, dollar signs, backticks and backslashes in them, if and only if no value
      holds a NUL. */
  lemma {:induction false} EnvRoundTrip(r: Response)
    ensures Sourced(Content(Pairs(r))) == if NulFree(Pairs(r)) then Some(Pairs(r)) else None
  {
    hide Pairs, Content, IsName, ReadFile, NulFree;
    NamesAreNames(r);
    ContentNul(Pairs(r));
    ReadContent(Pairs(r), "");
    EmptyFile();
    assert Content(Pairs(r)) + "" == Content(Pairs(r));
    assert Pairs(r) + [] == Pairs(r);
  }

  lemma EmptyFile()
    ensures ReadFile("") == Some([])
  {
  }

  // ---- the variables of a shell that sources the file -----------------------------------------

  /** The variables after the assignments, later ones over earlier ones. */
  function Variables(ps: seq<Pair>): map<string, string> {
    if ps == [] then map[] else Variables(ps[..|ps| - 1])[ps[|ps| - 1].0 := ps[|ps| - 1].1]
  }

  lemma {:induction false} Step(ps: seq<Pair>, n: nat)
    requires 0 < n <= |ps|
    ensures Variables(ps[..n]) == Variables(ps[..n - 1])[ps[n - 1].0 := ps[n - 1].1]
  {
    assert ps[..n][..n - 1] == ps[..n - 1];
  }

  lemma {:induction false} FirstVariables(r: Response)
    ensures Variables(Pairs(r)[..5]) == map[
      "NODE_ID" := r.nodeId, "BACKEND_ENDPOINT" := r.backendEndpoint, "TURN_SECRET" := r.turnSecret,
      "REALITY_UUID" := r.realityUuid, "REALITY_PUBLIC_KEY" := r.realityPublicKey]
  {
    hide Variables;
    NothingAssigned();
    var ps := Pairs(r);
    assert ps[..0] == [];
    Step(ps, 1);
    Step(ps, 2);
    Step(ps, 3);
    Step(ps, 4);
    Step(ps, 5);
  }

  /** Each variable holds its own field of the response. */
  lemma {:induction false} SourcedVariables(r: Response)
    ensures Variables(Pairs(r)) == map[
      "NODE_ID" := r.nodeId, "BACKEND_ENDPOINT" := r.backendEndpoint, "TURN_SECRET" := r.turnSecret,
      "REALITY_UUID" := r.realityUuid, "REALITY_PUBLIC_KEY" := r.realityPublicKey,
      "REALITY_SHORT_ID" := r.realityShortId, "REALITY_SERVER_NAME" := r.realityServerName,
      "REALITY_ENCRYPTION" := r.realityEncryption,
      "RELAY_JWT_SECRET" := match r.relayJwtSecret case Some(secret) => secret case None => "",
      "TURNS_SUBDOMAIN" := r.turnsSubdomain]
  {
    hide Variables;
    FirstVariables(r);
    var ps := Pairs(r);
    assert ps[..10] == ps;
    Step(ps, 6);
    Step(ps, 7);
    Step(ps, 8);
    Step(ps, 9);
    Step(ps, 10);
  }

  lemma NothingAssigned()
    ensures Variables([]) == map[]
  {
  }

  /** The file is written if and only if none of the ten values breaks a line. */
  lemma {:induction false} WrittenWhen(r: Response)
    ensures FirstBad(Pairs(r)).None? <==>
            && OneLine(r.nodeId) && OneLine(r.backendEndpoint) && OneLine(r.turnSecret) && OneLine(r.realityUuid)
            && OneLine(r.realityPublicKey) && OneLine(r.realityShortId) && OneLine(r.realityServerName)
            && OneLine(r.realityEncryption) && OneLine(r.turnsSubdomain)
            && (r.relayJwtSecret.Some? ==> OneLine(r.relayJwtSecret.value))
  {
    hide FirstBad;
    var ps := Pairs(r);
    NoneBad(ps);
    forall i | 0 <= i < 10
      ensures ValueOk(ps[i].1) <==> OneLine(ps[i].1)
    {
    }
    hide ValueOk, OneLine;
    assert OneLine(ps[0].1) && OneLine(ps[1].1) && OneLine(ps[2].1) && OneLine(ps[3].1) && OneLine(ps[4].1)
      && OneLine(ps[5].1) && OneLine(ps[6].1) && OneLine(ps[7].1) && OneLine(ps[8].1) && OneLine(ps[9].1)
      <==> forall i :: 0 <= i < 10 ==> ValueOk(ps[i].1);
    NoLines();
  }

  lemma NoLines()
    ensures OneLine("")
  {
  }

  predicate OneLine(v: string) {
    forall i :: 0 <= i < |v| ==> v[i] !in {'\n', '\r'}
  }

  // ---- ten lines --------------------------------------------------------------------------------

  lemma {:induction false} EscapeOneLine(v: string)
    requires '\n' !in v
    ensures '\n' !in Escape(v)
  {
    if v != "" {
      EscapeOneLine(v[1..]);
    }
  }

  /** The lines of the file without their line feeds. */
  function Bodies(ps: seq<Pair>): (r: seq<string>)
    ensures |r| == |ps|
  {
    if ps == [] then [] else Bodies(ps[..|ps| - 1]) + [ps[|ps| - 1].0 + "='" + Escape(ps[|ps| - 1].1) + "'"]
  }

  lemma {:induction false} BodiesJoin(ps: seq<Pair>)
    ensures Content(ps) == Join(Bodies(ps) + [""], '\n')
  {
    hide Escape;
    if ps == [] {
      assert Bodies(ps) + [""] == [""];
    } else {
      var init, p := ps[..|ps| - 1], ps[|ps| - 1];
      BodiesJoin(init);
      var body := p.0 + "='" + Escape(p.1) + "'";
      assert Line(p) == body + "\n";
      JoinSnoc(Bodies(init), body);
    }
  }

  lemma {:induction false} JoinSnoc(ls: seq<string>, body: string)
    ensures Join(ls + [body] + [""], '\n') == Join(ls + [""], '\n') + (body + "\n")
  {
    var last := [body] + [""];
    assert last[1..] == [""];
    assert Join(last, '\n') == body + ['\n'] + "";
    if ls == [] {
      assert ls + [body] + [""] == last;
      assert ls + [""] == [""];
    } else {
      assert ls + [body] + [""] == ls + last;
      JoinAppend(ls, last, '\n');
      JoinAppend(ls, [""], '\n');
    }
  }

  /** A written file is ten lines, one per pair, whenever it is written at all. */
  lemma {:induction false} TenLines(r: Response)
    requires FirstBad(Pairs(r)).None?
    ensures Split(Content(Pairs(r)), '\n') == Bodies(Pairs(r)) + [""]
  {
    hide Pairs, Content;
    BodiesJoin(Pairs(r));
    BodiesOneLine(Pairs(r));
    NamesAreNames(r);
    SplitOfJoin(Bodies(Pairs(r)) + [""], '\n');
  }

  lemma {:induction false} BodiesOneLine(ps: seq<Pair>)
    requires FirstBad(ps).None?
    ensures (forall i :: 0 <= i < |ps| ==> IsName(ps[i].0)) ==> forall i :: 0 <= i < |ps| ==> '\n' !in Bodies(ps)[i]
  {
    if ps != [] {
      var init, p := ps[..|ps| - 1], ps[|ps| - 1];
      NoneBad(ps);
      AllGood(init);
      BodiesOneLine(init);
      EscapeOneLine(p.1);
    }
  }

  /** Nothing is refused if and only if no value breaks a line. */
  lemma {:induction false} NoneBad(ps: seq<Pair>)
    ensures FirstBad(ps).None? <==> forall i :: 0 <= i < |ps| ==> ValueOk(ps[i].1)
  {
    hide ValueOk;
    if ps != [] {
      NoneBad(ps[1..]);
      assert forall i :: 1 <= i < |ps| ==> ps[i] == ps[1..][i - 1];
    }
  }

  /** A refusal names the first value, in file order, that breaks a line. */
  lemma {:induction false} RefusedFirst(ps: seq<Pair>)
    requires FirstBad(ps).Some?
    ensures exists i :: 0 <= i < |ps| && ps[i].0 == FirstBad(ps).value && !OneLine(ps[i].1)
                        && forall j :: 0 <= j < i ==> OneLine(ps[j].1)
  {
    if OneLine(ps[0].1) {
      RefusedFirst(ps[1..]);
      var i :| 0 <= i < |ps[1..]| && ps[1..][i].0 == FirstBad(ps).value && !OneLine(ps[1..][i].1)
               && forall j :: 0 <= j < i ==> OneLine(ps[1..][j].1);
      assert forall j :: 0 < j < i + 1 ==> ps[j] == ps[1..][j - 1];
      assert ps[i + 1] == ps[1..][i];
    }
  }

  lemma {:induction false} AllGood(ps: seq<Pair>)
    ensures (forall i :: 0 <= i < |ps| ==> ValueOk(ps[i].1)) ==> FirstBad(ps).None?
  {
    NoneBad(ps);
  }
}
