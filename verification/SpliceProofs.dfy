/**
 What the splice does to the lines, seen key by key. `Select(ls, Some(k))` are the lines of
 key `k` and `Select(ls, None)` the lines the merge does not own (identity fields, peers,
 section headers, comments), each in order.
 */
module SpliceProofs {
  import opened Common
  import opened Text
  import opened FieldSpecs
  import opened ConfMerge

  function Select(ls: seq<string>, o: Option<Key>): seq<string> {
    if ls == [] then []
    else (if Owner(ls[0]) == o then [ls[0]] else []) + Select(ls[1..], o)
  }

  lemma {:induction false} SelectMember(ls: seq<string>, o: Option<Key>, line: string)
    requires line in Select(ls, o)
    ensures Owner(line) == o && line in ls
  {
    if !(Owner(ls[0]) == o && line == ls[0]) {
      SelectMember(ls[1..], o, line);
    }
  }

  lemma {:induction false} SelectAppend(a: seq<string>, b: seq<string>, o: Option<Key>)
    ensures Select(a + b, o) == Select(a, o) + Select(b, o)
  {
    if a == [] {
      assert a + b == b;
    } else {
      assert (a + b)[1..] == a[1..] + b;
      SelectAppend(a[1..], b, o);
      Assoc(if Owner(a[0]) == o then [a[0]] else [], Select(a[1..], o), Select(b, o));
    }
  }

  lemma {:induction false} SelectHas(ls: seq<string>, line: string)
    requires line in ls
    ensures line in Select(ls, Owner(line))
  {
    if ls[0] != line {
      SelectHas(ls[1..], line);
    }
  }

  lemma {:induction false} SelectOwned(ls: seq<string>, k: Key)
    ensures Select(ls, Some(k)) != [] ==> Matches(k, Select(ls, Some(k))[0])
  {
    if Select(ls, Some(k)) != [] {
      SelectMember(ls, Some(k), Select(ls, Some(k))[0]);
    }
  }

  /** A lookup sees the first line of the key. */
  lemma {:induction false} RawIsFirst(k: Key, ls: seq<string>)
    ensures Select(ls, Some(k)) == [] <==> ConfRaw(k, ls).None?
    ensures Select(ls, Some(k)) != [] ==>
              && Matches(k, Select(ls, Some(k))[0])
              && ConfRaw(k, ls) == Some(Capture(k, Select(ls, Some(k))[0]))
  {
    if ls != [] {
      assert Owner(ls[0]) == Some(k) <==> Matches(k, ls[0]);
      RawIsFirst(k, ls[1..]);
      SelectOwned(ls, k);
    }
  }

  /** Lookups depend on the lines of the key only. */
  lemma {:induction false} SameLinesSameValue(k: Key, a: seq<string>, b: seq<string>)
    requires Select(a, Some(k)) == Select(b, Some(k))
    ensures ConfRaw(k, a) == ConfRaw(k, b)
    ensures ConfValue(k, a) == ConfValue(k, b)
  {
    RawIsFirst(k, a);
    RawIsFirst(k, b);
  }

  function Repeat(line: string, n: nat): (r: seq<string>)
    ensures |r| == n
    ensures forall i :: 0 <= i < n ==> r[i] == line
  {
    if n == 0 then [] else [line] + Repeat(line, n - 1)
  }

  /** A written line is owned by its key. */
  lemma {:induction false} WrittenOwner(k: Key, j: Job)
    requires !Act(k, j).Keep?
    ensures Owner(Act(k, j).line) == Some(k)
    ensures Resolved(k, j).Some? && Valid(k, Resolved(k, j).value)
    ensures Act(k, j).line == Render(k, Resolved(k, j).value)
  {
    RenderMatches(k, FinalRow(k, j).eff.value);
  }

  lemma {:induction false} RewriteOwner(line: string, j: Job)
    ensures Owner(Rewrite(line, j)) == Owner(line)
  {
    var o := Owner(line);
    if o.Some? && Act(o.value, j).Replace? {
      WrittenOwner(o.value, j);
    }
  }

  lemma {:induction false} SelectRewritten(ls: seq<string>, j: Job, o: Option<Key>)
    ensures Select(Rewritten(ls, j), o) ==
            if o.Some? && Act(o.value, j).Replace?
            then Repeat(Act(o.value, j).line, |Select(ls, o)|)
            else Select(ls, o)
  {
    hide Owner, Act;
    if ls != [] {
      var r := Rewritten(ls, j);
      assert r[1..] == Rewritten(ls[1..], j);
      RewriteOwner(ls[0], j);
      SelectRewritten(ls[1..], j, o);
    }
  }

  lemma {:induction false} InsertAbsent(ks: seq<Key>, j: Job, o: Option<Key>)
    requires o.Some? ==> o.value !in ks || !Act(o.value, j).Insert?
    ensures Select(InsertLines(ks, j), o) == []
  {
    if ks != [] {
      InsertAbsent(ks[1..], j, o);
      if Act(ks[0], j).Insert? {
        WrittenOwner(ks[0], j);
        assert InsertLines(ks, j)[1..] == InsertLines(ks[1..], j);
      } else {
        assert InsertLines(ks, j) == InsertLines(ks[1..], j);
      }
    }
  }

  predicate Distinct(ks: seq<Key>) {
    forall a, b :: 0 <= a < b < |ks| ==> ks[a] != ks[b]
  }

  lemma {:induction false} InsertPresent(ks: seq<Key>, j: Job, k: Key)
    requires Distinct(ks) && k in ks && Act(k, j).Insert?
    ensures Select(InsertLines(ks, j), Some(k)) == [Act(k, j).line]
  {
    hide Owner, Act, Resolved;
    WrittenOwner(k, j);
    if ks[0] == k {
      InsertAbsent(ks[1..], j, Some(k));
      assert InsertLines(ks, j)[1..] == InsertLines(ks[1..], j);
    } else {
      InsertPresent(ks[1..], j, k);
      if Act(ks[0], j).Insert? {
        WrittenOwner(ks[0], j);
        assert InsertLines(ks, j)[1..] == InsertLines(ks[1..], j);
      } else {
        assert InsertLines(ks, j) == InsertLines(ks[1..], j);
      }
    }
  }

  function Rank(k: Key): (i: nat)
    ensures i < |Table| && Table[i] == k
  {
    match k
    case Jc => 0 case Jmin => 1 case Jmax => 2 case S1 => 3 case S2 => 4 case S3 => 5 case S4 => 6
    case H1 => 7 case H2 => 8 case H3 => 9 case H4 => 10 case I1 => 11 case I2 => 12 case I3 => 13
    case I4 => 14 case I5 => 15 case HeaderProtectionKey => 16 case ContentPaddingAddition => 17
    case RekeyAfterTime => 18 case RekeyTimeout => 19 case RejectAfterTime => 20
    case KeepaliveTimeout => 21 case MaxHandshakeAttempts => 22 case RandomTrailers => 23
    case DisableCookies => 24
  }

  lemma {:induction false} TableDistinct()
    ensures Distinct(Table)
  {
    assert forall a :: 0 <= a < |Table| ==> Rank(Table[a]) == a;
  }

  /** The splice, key by key: kept keys keep their lines, a replaced key has every line
      rewritten, an inserted key has exactly one line, and every other line is untouched. */
  lemma {:induction false} SelectSpliced(j: Job, o: Option<Key>)
    requires CanInsert(j)
    ensures Select(Spliced(j), o) ==
            if o.None? then Select(j.conf, o)
            else match Act(o.value, j)
                 case Keep => Select(j.conf, o)
                 case Replace(l) => Repeat(l, |Select(j.conf, o)|)
                 case Insert(l) => [l]
  {
    var block := InsertLines(Table, j);
    var r := Rewritten(j.conf, j);
    SelectRewritten(j.conf, j, o);
    if o.Some? && Act(o.value, j).Insert? {
      TableDistinct();
      TableComplete(o.value);
      InsertPresent(Table, j, o.value);
      RawIsFirst(o.value, j.conf);
    } else {
      InsertAbsent(Table, j, o);
    }
    if block != [] {
      SelectInsertAfter(r, HeaderIndex(j.conf), block, o);
    }
  }

  lemma {:induction false} SelectInsertAfter(ls: seq<string>, h: nat, block: seq<string>, o: Option<Key>)
    requires h < |ls|
    ensures |Select(ls, o)| == 0 ==> Select(InsertAfter(ls, h, block), o) == Select(block, o)
    ensures Select(block, o) == [] ==> Select(InsertAfter(ls, h, block), o) == Select(ls, o)
  {
    hide Select;
    var pre, post := ls[..h + 1], ls[h + 1..];
    SelectAppend(pre + block, post, o);
    SelectAppend(pre, block, o);
    assert Select(ls, o) == Select(pre, o) + Select(post, o) by {
      assert ls == pre + post;
      SelectAppend(pre, post, o);
    }
    EmptyParts(Select(pre, o), Select(block, o), Select(post, o));
  }

  lemma {:induction false} EmptyParts(a: seq<string>, b: seq<string>, c: seq<string>)
    ensures |a + c| == 0 ==> a + b + c == b
    ensures b == [] ==> a + b + c == a + c
  {
  }
}
