/**
 The difference between the live and the proposed routes, keyed by `@id`.

 The maps are hash maps, so the loops visit their keys in an arbitrary order; the final sorts
 make the result a function of the two maps alone.
 */
module RouteDiff {
  import opened Common
  import opened Routes

  datatype Change = Change(id: string, before: Json, after: Json)

  datatype Diff = Diff(added: seq<Json>, removed: seq<string>, changed: seq<Change>, kept: nat)

  // ---- the order of ids ----------------------------------------------------------------------

  /** Lexicographic order by code point, which is the byte order of UTF-8. */
  predicate Less(a: string, b: string) {
    if b == "" then false
    else if a == "" then true
    else if a[0] != b[0] then a[0] < b[0]
    else Less(a[1..], b[1..])
  }

  lemma {:induction false} LessTotal(a: string, b: string)
    ensures a == b || Less(a, b) || Less(b, a)
    ensures !(Less(a, b) && Less(b, a))
    ensures Less(a, b) ==> a != b
  {
    if a != "" && b != "" && a[0] == b[0] {
      LessTotal(a[1..], b[1..]);
      assert a == [a[0]] + a[1..] && b == [b[0]] + b[1..];
    }
  }

  lemma {:induction false} LessTransitive(a: string, b: string, c: string)
    requires Less(a, b) && Less(b, c)
    ensures Less(a, c)
  {
    if a != "" && a[0] == b[0] && b[0] == c[0] {
      LessTransitive(a[1..], b[1..], c[1..]);
    }
  }

  /** Strictly increasing keys: sorted and free of duplicates. */
  ghost predicate Increasing<T>(xs: seq<T>, key: T -> string) {
    forall i, k :: 0 <= i < k < |xs| ==> Less(key(xs[i]), key(xs[k]))
  }

  /** The sort: stable insertion by key. */
  method SortBy<T(==)>(xs: seq<T>, key: T -> string) returns (ys: seq<T>)
    requires forall i, k :: 0 <= i < k < |xs| ==> key(xs[i]) != key(xs[k])
    ensures Increasing(ys, key)
    ensures multiset(ys) == multiset(xs)
  {
    ys := [];
    var n := 0;
    while n < |xs|
      invariant 0 <= n <= |xs|
      invariant Increasing(ys, key)
      invariant multiset(ys) == multiset(xs[..n])
    {
      assert xs[..n + 1] == xs[..n] + [xs[n]];
      forall i | 0 <= i < |ys|
        ensures key(ys[i]) != key(xs[n])
      {
        assert ys[i] in multiset(ys);
        assert ys[i] in multiset(xs[..n]);
        assert ys[i] in xs[..n];
      }
      ys := Insert(ys, xs[n], key);
      n := n + 1;
    }
    assert xs[..n] == xs;
  }

  method Insert<T(==)>(ys: seq<T>, x: T, key: T -> string) returns (zs: seq<T>)
    requires Increasing(ys, key) && forall i :: 0 <= i < |ys| ==> key(ys[i]) != key(x)
    ensures Increasing(zs, key) && multiset(zs) == multiset(ys + [x])
  {
    hide Less, Increasing;
    var n := 0;
    while n < |ys| && Less(key(ys[n]), key(x))
      invariant 0 <= n <= |ys|
      invariant forall i :: 0 <= i < n ==> Less(key(ys[i]), key(x))
    {
      n := n + 1;
    }
    zs := ys[..n] + [x] + ys[n..];
    RestAbove(ys, n, x, key);
    InsertKeepsOrder(ys, n, x, key);
    InsertKeepsElements(ys, n, x);
  }

  lemma {:induction false} RestAbove<T>(ys: seq<T>, n: nat, x: T, key: T -> string)
    requires Increasing(ys, key) && n <= |ys|
    requires n < |ys| ==> !Less(key(ys[n]), key(x)) && key(ys[n]) != key(x)
    ensures forall i :: n <= i < |ys| ==> Less(key(x), key(ys[i]))
  {
    hide Less;
    if n < |ys| {
      LessTotal(key(ys[n]), key(x));
      forall i | n < i < |ys|
        ensures Less(key(x), key(ys[i]))
      {
        LessTransitive(key(x), key(ys[n]), key(ys[i]));
      }
    }
  }

  lemma {:induction false} InsertKeepsOrder<T>(ys: seq<T>, n: nat, x: T, key: T -> string)
    requires Increasing(ys, key) && n <= |ys|
    requires forall i :: 0 <= i < n ==> Less(key(ys[i]), key(x))
    requires forall i :: n <= i < |ys| ==> Less(key(x), key(ys[i]))
    ensures Increasing(ys[..n] + [x] + ys[n..], key)
  {
    hide Less;
    var zs := ys[..n] + [x] + ys[n..];
    forall i, k | 0 <= i < k < |zs|
      ensures Less(key(zs[i]), key(zs[k]))
    {
      if k < n {
        assert zs[i] == ys[i] && zs[k] == ys[k];
      } else if n < i {
        assert zs[i] == ys[i - 1] && zs[k] == ys[k - 1];
      } else if k == n {
        assert zs[i] == ys[i] && zs[k] == x;
      } else if i == n {
        assert zs[i] == x && zs[k] == ys[k - 1];
      } else {
        assert zs[i] == ys[i] && zs[k] == ys[k - 1];
      }
    }
  }

  lemma InsertKeepsElements<T>(ys: seq<T>, n: nat, x: T)
    requires n <= |ys|
    ensures multiset(ys[..n] + [x] + ys[n..]) == multiset(ys + [x])
  {
    assert ys == ys[..n] + ys[n..];
  }

  /** Two strictly increasing sequences with the same elements are the same sequence. */
  lemma {:induction false} SortedIsUnique<T>(xs: seq<T>, ys: seq<T>, key: T -> string)
    requires Increasing(xs, key) && Increasing(ys, key)
    requires forall x :: x in xs <==> x in ys
    ensures xs == ys
  {
    assert xs != [] ==> xs[0] in ys;
    assert ys != [] ==> ys[0] in xs;
    if xs != [] {
      SameHead(xs, ys, key);
      TailElements(xs, key);
      TailElements(ys, key);
      SortedIsUnique(xs[1..], ys[1..], key);
      assert xs == [xs[0]] + xs[1..] && ys == [ys[0]] + ys[1..];
    }
  }

  lemma {:induction false} SameHead<T>(xs: seq<T>, ys: seq<T>, key: T -> string)
    requires Increasing(xs, key) && Increasing(ys, key) && xs != [] && ys != []
    requires xs[0] in ys && ys[0] in xs
    ensures xs[0] == ys[0]
  {
    var i :| 0 <= i < |ys| && ys[i] == xs[0];
    var k :| 0 <= k < |xs| && xs[k] == ys[0];
    LessTotal(key(xs[0]), key(ys[0]));
  }

  lemma {:induction false} TailElements<T>(xs: seq<T>, key: T -> string)
    requires Increasing(xs, key) && xs != []
    ensures Increasing(xs[1..], key)
    ensures forall x :: x in xs[1..] <==> x in xs && x != xs[0]
  {
    assert xs == [xs[0]] + xs[1..];
    forall i | 0 < i < |xs|
      ensures xs[i] != xs[0]
    {
      LessTotal(key(xs[0]), key(xs[i]));
    }
  }

  // ---- the maps ---------------------------------------------------------------------------

  /** `id_map`: a later route with the same id wins, and a route without one is skipped. */
  function IdMap(routes: seq<Json>): map<string, Json> {
    if routes == [] then map[]
    else
      var last := routes[|routes| - 1];
      var m := IdMap(routes[..|routes| - 1]);
      if RouteId(last).Some? then m[RouteId(last).value := last] else m
  }

  lemma {:induction false} IdMapKeys(routes: seq<Json>)
    ensures forall id :: id in IdMap(routes) ==> IdMap(routes)[id] in routes && RouteId(IdMap(routes)[id]) == Some(id)
    ensures forall v :: v in routes && RouteId(v).Some? ==> RouteId(v).value in IdMap(routes)
  {
    hide RouteId;
    if routes != [] {
      IdMapKeys(routes[..|routes| - 1]);
      assert routes == routes[..|routes| - 1] + [routes[|routes| - 1]];
    }
  }

  // ---- the diff ----------------------------------------------------------------------------

  function KeyOf(v: Json): string {
    if RouteId(v).Some? then RouteId(v).value else ""
  }

  function ChangeKey(c: Change): string {
    c.id
  }

  function Same(s: string): string {
    s
  }

  ghost predicate AddedIs(added: seq<Json>, live: map<string, Json>, proposed: map<string, Json>) {
    && Increasing(added, KeyOf)
    && forall v :: v in added <==> KeyOf(v) in proposed && KeyOf(v) !in live && proposed[KeyOf(v)] == v
  }

  ghost predicate RemovedIs(removed: seq<string>, live: map<string, Json>, proposed: map<string, Json>) {
    && Increasing(removed, Same)
    && forall id :: id in removed <==> id in live && id !in proposed
  }

  ghost predicate ChangedIs(changed: seq<Change>, live: map<string, Json>, proposed: map<string, Json>) {
    && Increasing(changed, ChangeKey)
    && forall c :: c in changed <==>
         && c.id in live && c.id in proposed
         && c.before == live[c.id] && c.after == proposed[c.id] && c.before != c.after
  }

  ghost predicate SameIds(kept: set<string>, live: map<string, Json>, proposed: map<string, Json>) {
    forall id :: id in kept <==> id in live && id in proposed && live[id] == proposed[id]
  }

  ghost predicate KeptIs(count: nat, live: map<string, Json>, proposed: map<string, Json>) {
    exists kept: set<string> :: SameIds(kept, live, proposed) && |kept| == count
  }

  ghost predicate IsDiff(d: Diff, live: map<string, Json>, proposed: map<string, Json>) {
    && AddedIs(d.added, live, proposed)
    && RemovedIs(d.removed, live, proposed)
    && ChangedIs(d.changed, live, proposed)
    && KeptIs(d.kept, live, proposed)
  }

  /** Every key indexes a route that carries it, as `IdMap` guarantees. */
  ghost predicate Keyed(m: map<string, Json>) {
    forall id :: id in m ==> RouteId(m[id]) == Some(id)
  }

  method CollectAdded(live: map<string, Json>, proposed: map<string, Json>) returns (added: seq<Json>)
    requires Keyed(proposed)
    ensures AddedIs(added, live, proposed)
  {
    hide RouteId;
    added := [];
    var todo := proposed.Keys;
    while todo != {}
      invariant todo <= proposed.Keys
      invariant forall v :: v in added <==>
        KeyOf(v) in proposed && KeyOf(v) !in todo && KeyOf(v) !in live && proposed[KeyOf(v)] == v
      invariant forall i, k :: 0 <= i < k < |added| ==> KeyOf(added[i]) != KeyOf(added[k])
      decreases |todo|
    {
      var id :| id in todo;
      assert KeyOf(proposed[id]) == id;
      if id !in live {
        added := added + [proposed[id]];
      }
      todo := todo - {id};
    }
    var sorted := SortBy(added, KeyOf);
    SameElements(sorted, added);
    added := sorted;
  }

  method CollectRemoved(live: map<string, Json>, proposed: map<string, Json>) returns (removed: seq<string>)
    ensures RemovedIs(removed, live, proposed)
  {
    removed := [];
    var todo := live.Keys;
    while todo != {}
      invariant todo <= live.Keys
      invariant forall id :: id in removed <==> id in live && id !in todo && id !in proposed
      invariant forall i, k :: 0 <= i < k < |removed| ==> Same(removed[i]) != Same(removed[k])
      decreases |todo|
    {
      var id :| id in todo;
      if id !in proposed {
        removed := removed + [id];
      }
      todo := todo - {id};
    }
    var sorted := SortBy(removed, Same);
    SameElements(sorted, removed);
    removed := sorted;
  }

  /** The changes found once every id but those in `todo` has been visited. */
  ghost predicate ChangedSoFar(changed: seq<Change>, live: map<string, Json>, proposed: map<string, Json>,
                               todo: set<string>)
  {
    && (forall c :: c in changed <==>
          && c.id in live && c.id in proposed && c.id !in todo
          && c.before == live[c.id] && c.after == proposed[c.id] && c.before != c.after)
    && (forall i, k :: 0 <= i < k < |changed| ==> ChangeKey(changed[i]) != ChangeKey(changed[k]))
  }

  lemma {:induction false} VisitChanged(changed: seq<Change>, live: map<string, Json>,
                                        proposed: map<string, Json>, todo: set<string>, id: string)
    requires ChangedSoFar(changed, live, proposed, todo) && id in todo && id in proposed
    ensures id in live && live[id] != proposed[id] ==>
              ChangedSoFar(changed + [Change(id, live[id], proposed[id])], live, proposed, todo - {id})
    ensures !(id in live && live[id] != proposed[id]) ==> ChangedSoFar(changed, live, proposed, todo - {id})
  {
    assert forall k :: 0 <= k < |changed| ==> changed[k] in changed;
  }

  ghost predicate SameSoFar(kept: set<string>, live: map<string, Json>, proposed: map<string, Json>,
                            todo: set<string>)
  {
    forall id :: id in kept <==> id in live && id in proposed && id !in todo && live[id] == proposed[id]
  }

  lemma {:induction false} VisitSame(kept: set<string>, live: map<string, Json>,
                                     proposed: map<string, Json>, todo: set<string>, id: string)
    requires SameSoFar(kept, live, proposed, todo) && id in todo && id in proposed
    ensures id in live && live[id] == proposed[id] ==>
              SameSoFar(kept + {id}, live, proposed, todo - {id}) && |kept + {id}| == |kept| + 1
    ensures !(id in live && live[id] == proposed[id]) ==> SameSoFar(kept, live, proposed, todo - {id})
  {
  }

  method CollectChanged(live: map<string, Json>, proposed: map<string, Json>)
    returns (changed: seq<Change>, count: nat)
    ensures ChangedIs(changed, live, proposed)
    ensures KeptIs(count, live, proposed)
  {
    hide Increasing, ChangedSoFar, SameSoFar;
    changed, count := [], 0;
    var todo := proposed.Keys;
    ghost var kept: set<string> := {};
    NothingVisited(live, proposed);
    while todo != {}
      invariant todo <= proposed.Keys
      invariant ChangedSoFar(changed, live, proposed, todo)
      invariant SameSoFar(kept, live, proposed, todo) && count == |kept|
      decreases |todo|
    {
      var id :| id in todo;
      VisitChanged(changed, live, proposed, todo, id);
      VisitSame(kept, live, proposed, todo, id);
      if id in live {
        if live[id] == proposed[id] {
          count := count + 1;
          kept := kept + {id};
        } else {
          changed := changed + [Change(id, live[id], proposed[id])];
        }
      }
      todo := todo - {id};
    }
    AllVisited(changed, kept, live, proposed);
    var sorted := SortBy(changed, ChangeKey);
    SameElements(sorted, changed);
    changed := sorted;
  }

  lemma NothingVisited(live: map<string, Json>, proposed: map<string, Json>)
    ensures ChangedSoFar([], live, proposed, proposed.Keys)
    ensures SameSoFar({}, live, proposed, proposed.Keys)
  {
  }

  lemma AllVisited(changed: seq<Change>, kept: set<string>, live: map<string, Json>, proposed: map<string, Json>)
    requires ChangedSoFar(changed, live, proposed, {}) && SameSoFar(kept, live, proposed, {})
    ensures SameIds(kept, live, proposed)
    ensures forall i, k :: 0 <= i < k < |changed| ==> ChangeKey(changed[i]) != ChangeKey(changed[k])
    ensures forall c :: c in changed <==>
              && c.id in live && c.id in proposed
              && c.before == live[c.id] && c.after == proposed[c.id] && c.before != c.after
  {
  }

  lemma SameElements<T>(xs: seq<T>, ys: seq<T>)
    requires multiset(xs) == multiset(ys)
    ensures forall x :: x in xs <==> x in ys
  {
    forall x
      ensures x in xs <==> x in ys
    {
      assert x in xs <==> x in multiset(xs);
    }
  }

  /** `diff_routes`. */
  method DiffRoutes(live: seq<Json>, proposed: seq<Json>) returns (d: Diff)
    ensures IsDiff(d, IdMap(live), IdMap(proposed))
  {
    IdMapKeys(live);
    IdMapKeys(proposed);
    var liveMap, proposedMap := IdMap(live), IdMap(proposed);
    var added := CollectAdded(liveMap, proposedMap);
    var removed := CollectRemoved(liveMap, proposedMap);
    var changed, count := CollectChanged(liveMap, proposedMap);
    d := Diff(added, removed, changed, count);
  }

  // ---- what a diff is worth ------------------------------------------------------------------

  /** The iteration order of the hash maps does not show: the two maps determine the diff. */
  lemma {:induction false} DiffIsUnique(d: Diff, e: Diff, live: map<string, Json>, proposed: map<string, Json>)
    requires IsDiff(d, live, proposed) && IsDiff(e, live, proposed)
    ensures d == e
  {
    hide Increasing, KeyOf, ChangeKey, Same, SameIds, KeptIs;
    CountIsUnique(d.kept, e.kept, live, proposed);
    SortedIsUnique(d.added, e.added, KeyOf);
    SortedIsUnique(d.removed, e.removed, Same);
    SortedIsUnique(d.changed, e.changed, ChangeKey);
  }

  lemma CountIsUnique(a: nat, b: nat, live: map<string, Json>, proposed: map<string, Json>)
    requires KeptIs(a, live, proposed) && KeptIs(b, live, proposed)
    ensures a == b
  {
    var x :| SameIds(x, live, proposed) && |x| == a;
    var y :| SameIds(y, live, proposed) && |y| == b;
    assert x == y;
  }

  /** Carrying a diff out on the live routes. */
  ghost function Applied(live: map<string, Json>, d: Diff): map<string, Json> {
    map id | id in live.Keys + (set v | v in d.added :: KeyOf(v)) && id !in d.removed ::
      if exists v :: v in d.added && KeyOf(v) == id then var v :| v in d.added && KeyOf(v) == id; v
      else if exists c :: c in d.changed && c.id == id then var c :| c in d.changed && c.id == id; c.after
      else live[id]
  }

  /** The diff is complete and exact: carrying it out turns the live routes into the proposed ones. */
  lemma {:induction false} DiffReachesProposed(d: Diff, live: map<string, Json>, proposed: map<string, Json>)
    requires Keyed(proposed) && IsDiff(d, live, proposed)
    ensures Applied(live, d) == proposed
  {
    hide RouteId, Increasing, KeptIs;
    forall id | id in proposed
      ensures id in Applied(live, d) && Applied(live, d)[id] == proposed[id]
    {
      assert KeyOf(proposed[id]) == id;
      if id !in live {
        assert proposed[id] in d.added;
      } else if live[id] != proposed[id] {
        assert Change(id, live[id], proposed[id]) in d.changed;
      }
    }
    assert Applied(live, d).Keys == proposed.Keys;
  }

  /** Every proposed id is added, changed or unchanged, and every live id removed, changed or unchanged. */
  lemma {:induction false} DiffCounts(d: Diff, live: map<string, Json>, proposed: map<string, Json>)
    requires Keyed(proposed) && IsDiff(d, live, proposed)
    ensures |d.added| + |d.changed| + d.kept == |proposed|
    ensures |d.removed| + |d.changed| + d.kept == |live|
  {
    hide RouteId, Increasing, KeyOf, ChangeKey, AddedIs, RemovedIs, ChangedIs, Same;
    var kept :| SameIds(kept, live, proposed) && |kept| == d.kept;
    var added := AddedKeys(d.added, live, proposed);
    var removed := RemovedKeys(d.removed, live, proposed);
    var changed := ChangedKeys(d.changed, live, proposed);
    ThreeParts(added, changed, kept, proposed.Keys);
    ThreeParts(removed, changed, kept, live.Keys);
  }

  lemma ThreeParts(a: set<string>, b: set<string>, c: set<string>, whole: set<string>)
    requires a !! b && a !! c && b !! c
    requires forall x :: x in whole <==> x in a || x in b || x in c
    ensures |whole| == |a| + |b| + |c|
  {
    assert whole == a + b + c;
  }

  lemma {:induction false} AddedKeys(added: seq<Json>, live: map<string, Json>, proposed: map<string, Json>)
    returns (keys: set<string>)
    requires Keyed(proposed) && AddedIs(added, live, proposed)
    ensures |keys| == |added| && forall id :: id in keys <==> id in proposed && id !in live
  {
    hide RouteId, Increasing;
    keys := CountKeys(added, KeyOf);
    forall id | id in proposed && id !in live
      ensures id in keys
    {
      assert KeyOf(proposed[id]) == id;
      assert proposed[id] in added;
    }
  }

  lemma {:induction false} RemovedKeys(removed: seq<string>, live: map<string, Json>, proposed: map<string, Json>)
    returns (keys: set<string>)
    requires RemovedIs(removed, live, proposed)
    ensures |keys| == |removed| && forall id :: id in keys <==> id in live && id !in proposed
  {
    hide Increasing;
    keys := CountKeys(removed, Same);
    forall id | id in live && id !in proposed
      ensures id in keys
    {
      assert id in removed && Same(id) == id;
    }
  }

  lemma {:induction false} ChangedKeys(changed: seq<Change>, live: map<string, Json>, proposed: map<string, Json>)
    returns (keys: set<string>)
    requires ChangedIs(changed, live, proposed)
    ensures |keys| == |changed| && forall id :: id in keys <==> id in live && id in proposed && live[id] != proposed[id]
  {
    hide Increasing;
    keys := CountKeys(changed, ChangeKey);
    forall id | id in proposed && id in live && live[id] != proposed[id]
      ensures id in keys
    {
      var c := Change(id, live[id], proposed[id]);
      assert c in changed && ChangeKey(c) == id;
    }
  }

  /** A strictly increasing sequence has as many elements as keys. */
  lemma {:induction false} CountKeys<T>(xs: seq<T>, key: T -> string) returns (keys: set<string>)
    requires Increasing(xs, key)
    ensures |keys| == |xs|
    ensures forall k :: k in keys <==> exists x :: x in xs && key(x) == k
  {
    if xs == [] {
      keys := {};
    } else {
      var n := |xs| - 1;
      var rest := CountKeys(xs[..n], key);
      forall x | x in xs[..n]
        ensures key(x) != key(xs[n])
      {
        var i :| 0 <= i < n && xs[i] == x;
        LessTotal(key(xs[i]), key(xs[n]));
      }
      assert key(xs[n]) !in rest;
      keys := rest + {key(xs[n])};
      assert xs == xs[..n] + [xs[n]];
    }
  }

  /** No difference exactly when the two maps are equal. */
  lemma {:induction false} EmptyIffSame(d: Diff, live: map<string, Json>, proposed: map<string, Json>)
    requires Keyed(proposed) && IsDiff(d, live, proposed)
    ensures d.added == [] && d.removed == [] && d.changed == [] <==> live == proposed
  {
    hide RouteId, Increasing, KeptIs, KeyOf, Applied;
    DiffReachesProposed(d, live, proposed);
    if d.added == [] && d.removed == [] && d.changed == [] {
      NothingToApply(live, d);
    }
    var v, id, c := Head(d.added), Head(d.removed), Head(d.changed);
  }

  lemma NothingToApply(live: map<string, Json>, d: Diff)
    requires d.added == [] && d.removed == [] && d.changed == []
    ensures Applied(live, d) == live
  {
  }

  /** The first element, if there is one. */
  ghost function Head<T>(xs: seq<T>): (r: Option<T>)
    ensures r.None? <==> xs == []
    ensures r.Some? ==> r.value in xs
  {
    if xs == [] then None else Some(xs[0])
  }
}
