/**
 From a validated tenants file to the routes that a deployment ends with.
 */
module TenantRoutes {
  import opened Common
  import opened Tenants
  import opened Routes
  import opened RouteDiff

  /** Text before the first colon, and the text after it, are determined by the whole. */
  lemma {:induction false} ColonSplit(a: string, x: string, b: string, y: string)
    requires ':' !in a && ':' !in b && a + ":" + x == b + ":" + y
    ensures a == b && x == y
  {
    var whole := a + ":" + x;
    assert whole[|a|] == ':' && whole[|b|] == ':';
    assert forall k :: 0 <= k < |a| ==> whole[k] == a[k];
    assert forall k :: 0 <= k < |b| ==> whole[k] == b[k];
    assert |a| == |b|;
    assert a == whole[..|a|] && b == whole[..|a|];
    assert x == whole[|a| + 1..] && y == whole[|a| + 1..];
  }

  lemma {:induction false} RedirectIdsApart(id: string, host: string, other: string, otherHost: string)
    requires IsTenantId(id) && IsTenantId(other) && RedirectId(id, host) == RedirectId(other, otherHost)
    ensures id == other && host == otherHost
  {
    var x, y := "redirect:" + host, "redirect:" + otherHost;
    assert RedirectId(id, host)[7..] == id + ":" + x;
    assert RedirectId(other, otherHost)[7..] == other + ":" + y;
    ColonSplit(id, x, other, y);
    assert x[9..] == host && y[9..] == otherHost;
  }

  lemma RedirectInjective(id: string, r: Redirect, q: Redirect)
    requires RenderRedirect(id, r) == RenderRedirect(id, q) && r.fromHost == q.fromHost
    ensures r == q
  {
    var h, g := RenderRedirect(id, r).fields["handle"].items[0], RenderRedirect(id, q).fields["handle"].items[0];
    assert h.fields["status_code"] == g.fields["status_code"];
    assert h.fields["headers"].fields["Location"] == g.fields["headers"].fields["Location"];
    StringsInjective([r.to], [q.to]);
    assert [r.to][0] == [q.to][0];
  }

  /** No enabled tenant has two different redirects for one host. */
  ghost predicate RedirectsAgree(ts: seq<Tenant>) {
    forall i, r, q ::
      (0 <= i < |ts| && ts[i].enabled && r in ts[i].redirects && q in ts[i].redirects && r.fromHost == q.fromHost)
      ==> r == q
  }

  lemma {:induction false} SameIdSameRoute(f: TenantsFile, v: Json, w: Json)
    requires WellFormed(f) && RedirectsAgree(f.tenants)
    requires v in AllRoutes(f.tenants) && w in AllRoutes(f.tenants)
    requires RouteId(v) == RouteId(w)
    ensures v == w
  {
    hide AllRoutes;
    var ts := f.tenants;
    RoutesAre(ts, v);
    RoutesAre(ts, w);
    var i :| ComesFrom(ts, v, i);
    var k :| ComesFrom(ts, w, k);
    assert TenantOk(ts[i]) && TenantOk(ts[k]);
    if v == RenderMain(ts[i]) {
      IdsIdentifyMains(f, i, w);
    } else if w == RenderMain(ts[k]) {
      IdsIdentifyMains(f, k, v);
    } else {
      BothRedirects(f, i, k, v, w);
    }
  }

  lemma {:induction false} BothRedirects(f: TenantsFile, i: int, k: int, v: Json, w: Json)
    requires WellFormed(f) && RedirectsAgree(f.tenants)
    requires 0 <= i < |f.tenants| && f.tenants[i].enabled && 0 <= k < |f.tenants|
    requires exists r :: r in f.tenants[i].redirects && v == RenderRedirect(f.tenants[i].id, r)
    requires exists q :: q in f.tenants[k].redirects && w == RenderRedirect(f.tenants[k].id, q)
    requires RouteId(v) == RouteId(w)
    ensures v == w
  {
    var ts := f.tenants;
    var r :| r in ts[i].redirects && v == RenderRedirect(ts[i].id, r);
    var q :| q in ts[k].redirects && w == RenderRedirect(ts[k].id, q);
    assert TenantOk(ts[i]) && TenantOk(ts[k]);
    RedirectIdsApart(ts[i].id, r.fromHost, ts[k].id, q.fromHost);
    OnePosition(ts, i, k);
  }

  ghost predicate NoneLost(routes: seq<Json>) {
    forall v :: v in routes ==> KeyOf(v) in IdMap(routes) && IdMap(routes)[KeyOf(v)] == v
  }

  /** Main routes always survive the id map of a validated file. */
  lemma {:induction false} MainsSurvive(f: TenantsFile, i: int)
    requires WellFormed(f) && 0 <= i < |f.tenants| && f.tenants[i].enabled
    ensures var m := IdMap(AllRoutes(f.tenants));
            MainId(f.tenants[i].id) in m && m[MainId(f.tenants[i].id)] == RenderMain(f.tenants[i])
  {
    hide AllRoutes, IdMap;
    var routes, main := AllRoutes(f.tenants), RenderMain(f.tenants[i]);
    RoutesAre(f.tenants, main);
    assert ComesFrom(f.tenants, main, i);
    assert RouteId(main) == Some(MainId(f.tenants[i].id));
    IdMapKeys(routes);
    IdsIdentifyMains(f, i, IdMap(routes)[MainId(f.tenants[i].id)]);
  }

  lemma {:induction false} HaveIds(ts: seq<Tenant>, v: Json)
    requires v in AllRoutes(ts)
    ensures RouteId(v).Some? && RouteId(v).value == KeyOf(v)
  {
    RoutesAre(ts, v);
    var i :| ComesFrom(ts, v, i);
  }

  /** Keying by id keeps every rendered route of a validated file if and only if no enabled
      tenant has two different redirects for one host; validation does not look at redirects. */
  lemma {:induction false} NoRouteLost(f: TenantsFile)
    requires WellFormed(f)
    ensures NoneLost(AllRoutes(f.tenants)) <==> RedirectsAgree(f.tenants)
  {
    hide AllRoutes, IdMap, WellFormed, RouteId, KeyOf;
    var ts, routes := f.tenants, AllRoutes(f.tenants);
    IdMapKeys(routes);
    if RedirectsAgree(ts) {
      forall v | v in routes
        ensures KeyOf(v) in IdMap(routes) && IdMap(routes)[KeyOf(v)] == v
      {
        HaveIds(ts, v);
        SameIdSameRoute(f, v, IdMap(routes)[KeyOf(v)]);
      }
    }
    if NoneLost(routes) {
      forall i, r, q | 0 <= i < |ts| && ts[i].enabled && r in ts[i].redirects && q in ts[i].redirects
                       && r.fromHost == q.fromHost
        ensures r == q
      {
        SameRedirect(ts, i, r, q);
      }
    }
  }

  lemma {:induction false} SameRedirect(ts: seq<Tenant>, i: int, r: Redirect, q: Redirect)
    requires NoneLost(AllRoutes(ts)) && 0 <= i < |ts| && ts[i].enabled
    requires r in ts[i].redirects && q in ts[i].redirects && r.fromHost == q.fromHost
    ensures r == q
  {
    hide AllRoutes, IdMap;
    var v, w := RenderRedirect(ts[i].id, r), RenderRedirect(ts[i].id, q);
    RoutesAre(ts, v);
    RoutesAre(ts, w);
    assert ComesFrom(ts, v, i) && ComesFrom(ts, w, i);
    assert KeyOf(v) == KeyOf(w);
    RedirectInjective(ts[i].id, r, q);
  }

  /** A file that validates and still loses a redirect. */
  lemma LostRedirect() returns (f: TenantsFile)
    ensures WellFormed(f) && !NoneLost(AllRoutes(f.tenants))
  {
    var r, q := Redirect("a.b", "https://x", true), Redirect("a.b", "https://y", true);
    var t := Tenant("abc", [], true, [], [r, q]);
    f := TenantsFile(1, [t]);
    assert WellFormed(f);
    NoRouteLost(f);
    assert f.tenants[0] == t && r in t.redirects && q in t.redirects;
    assert r.to != q.to;
  }

  /** End to end: diff the rendered routes of a validated file against any live state and carry the
      diff out; every enabled tenant's main route is then live under its own id. */
  lemma {:induction false} Deployed(f: TenantsFile, live: seq<Json>, d: Diff, i: int)
    requires WellFormed(f) && 0 <= i < |f.tenants| && f.tenants[i].enabled
    requires IsDiff(d, IdMap(live), IdMap(AllRoutes(f.tenants)))
    ensures var after := Applied(IdMap(live), d);
            MainId(f.tenants[i].id) in after && after[MainId(f.tenants[i].id)] == RenderMain(f.tenants[i])
  {
    hide *;
    MainsSurvive(f, i);
    KeyedMap(AllRoutes(f.tenants));
    DiffReachesProposed(d, IdMap(live), IdMap(AllRoutes(f.tenants)));
  }

  lemma KeyedMap(routes: seq<Json>)
    ensures Keyed(IdMap(routes))
  {
    IdMapKeys(routes);
  }
}
