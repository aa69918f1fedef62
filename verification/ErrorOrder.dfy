/**
 The order of the validator's error list: it has exactly one error for every check that fails, in the
 order of the checks.
 */
module ErrorOrder {
  import opened Text
  import opened Tenants

  /** One check: of a tenant, its id, domains or routes, of which item, and which of the item's two. */
  datatype Site = Site(tenant: nat, part: nat, item: nat, check: nat)

  predicate Before(a: Site, b: Site) {
    || a.tenant < b.tenant
    || (a.tenant == b.tenant && a.part < b.part)
    || (a.tenant == b.tenant && a.part == b.part && a.item < b.item)
    || (a.tenant == b.tenant && a.part == b.part && a.item == b.item && a.check < b.check)
  }

  /** The check fails with the error. */
  ghost predicate Fails(ts: seq<Tenant>, s: Site, e: ValidationError) {
    && s.tenant < |ts|
    && var t := ts[s.tenant];
    match s.part
    case 0 => s.item == 0 && IdFails(ts, s.tenant, s.check, e)
    case 1 => s.item < |t.domains| && DomainFails(ts, s.tenant, t.domains[s.item], s.check, e)
    case 2 => s.item < |t.routes| && RouteFails(t.id, s.item, t.routes[s.item], s.check, e)
    case _ => false
  }

  ghost predicate IdFails(ts: seq<Tenant>, k: nat, check: nat, e: ValidationError)
    requires k < |ts|
  {
    match check
    case 0 => e == DuplicateTenantId(ts[k].id) && exists i :: 0 <= i < k && ts[i].id == ts[k].id
    case 1 => e == InvalidTenantId(ts[k].id) && !IsTenantId(ts[k].id)
    case _ => false
  }

  ghost predicate DomainFails(ts: seq<Tenant>, k: nat, d: string, check: nat, e: ValidationError)
    requires k < |ts|
  {
    match check
    case 0 => e == InvalidDomain(ts[k].id, d) && !IsDomain(d)
    case 1 => e.DomainCollision? && e == DomainCollision(d, e.a, ts[k].id) && e.a != ts[k].id
              && exists i :: 0 <= i < k && FirstLister(ts, d, i) && ts[i].id == e.a
    case _ => false
  }

  predicate RouteFails(id: string, n: nat, r: Route, check: nat, e: ValidationError) {
    match check
    case 0 => e == InvalidRoutePath(id, n) && !StartsWithSlash(r.path)
    case 1 =>
      || (e == ProxyMissingUpstream(id, n) && r.action.Proxy? && r.action.upstream == "")
      || (e == FileServerInvalidRoot(id, n) && r.action.FileServer? && !StartsWithSlash(r.action.root))
    case _ => false
  }

  /** The errors are those of the failing checks from `lo` up to `hi`, one for each, in order. */
  ghost predicate Listed(ts: seq<Tenant>, es: seq<ValidationError>, sites: seq<Site>, lo: Site, hi: Site) {
    && |sites| == |es|
    && (forall i :: 0 <= i < |es| ==> Fails(ts, sites[i], es[i]) && !Before(sites[i], lo) && Before(sites[i], hi))
    && (forall i, k :: 0 <= i < k < |es| ==> Before(sites[i], sites[k]))
    && (forall s, e :: Fails(ts, s, e) && !Before(s, lo) && Before(s, hi) ==> s in sites)
  }

  lemma {:induction false} Append(ts: seq<Tenant>, a: seq<ValidationError>, s: seq<Site>, b: seq<ValidationError>,
                                  t: seq<Site>, lo: Site, mid: Site, hi: Site)
    requires Listed(ts, a, s, lo, mid) && Listed(ts, b, t, mid, hi) && !Before(mid, lo) && !Before(hi, mid)
    ensures Listed(ts, a + b, s + t, lo, hi)
  {
    hide Fails;
  }

  /** A stretch that holds at most one failing check, its first. */
  lemma {:induction false} Single(ts: seq<Tenant>, es: seq<ValidationError>, lo: Site, hi: Site)
    returns (sites: seq<Site>)
    requires |es| <= 1 && Before(lo, hi)
    requires es != [] ==> Fails(ts, lo, es[0])
    requires forall s, e :: Fails(ts, s, e) && !Before(s, lo) && Before(s, hi) ==> es != [] && s == lo
    ensures Listed(ts, es, sites, lo, hi)
  {
    hide Fails;
    sites := if es == [] then [] else [lo];
  }

  // ---- the id ---------------------------------------------------------------------------------------

  lemma {:induction false} IdListed(ts: seq<Tenant>, k: nat) returns (sites: seq<Site>)
    requires k < |ts|
    ensures Listed(ts, IdErrors(ts[k], Ids(ts[..k])), sites, Site(k, 0, 0, 0), Site(k, 1, 0, 0))
  {
    hide IsTenantId, Listed;
    var t := ts[k];
    assert ts[..k + 1][..k] == ts[..k];
    IdSeen(ts[..k + 1]);
    var a := if t.id in Ids(ts[..k]) then [DuplicateTenantId(t.id)] else [];
    var b := if !IsTenantId(t.id) then [InvalidTenantId(t.id)] else [];
    var x := Single(ts, a, Site(k, 0, 0, 0), Site(k, 0, 0, 1));
    var y := Single(ts, b, Site(k, 0, 0, 1), Site(k, 1, 0, 0));
    Append(ts, a, x, b, y, Site(k, 0, 0, 0), Site(k, 0, 0, 1), Site(k, 1, 0, 0));
    sites := x + y;
  }

  // ---- the domains ----------------------------------------------------------------------------------

  /** The claims before a tenant, seen from the whole list. */
  lemma {:induction false} ClaimedBefore(ts: seq<Tenant>, k: nat, d: string, a: string)
    requires k < |ts|
    ensures d in Claims(ts[..k]) && Claims(ts[..k])[d] == a <==>
            exists i :: 0 <= i < k && FirstLister(ts, d, i) && ts[i].id == a
  {
    hide Claims;
    ClaimedBy(ts[..k], d, a);
    assert forall i :: 0 <= i < k ==> ts[..k][i] == ts[i];
  }

  /** The two checks of one domain. */
  lemma {:induction false} OneDomain(ts: seq<Tenant>, k: nat, n: nat, claimed: map<string, string>)
    returns (sites: seq<Site>)
    requires k < |ts| && n < |ts[k].domains|
    requires var d, id := ts[k].domains[n], ts[k].id;
             && (d in claimed && claimed[d] != id <==>
                   exists i :: 0 <= i < k && FirstLister(ts, d, i) && ts[i].id != id)
             && (d in claimed && claimed[d] != id ==>
                   exists i :: 0 <= i < k && FirstLister(ts, d, i) && ts[i].id == claimed[d])
    ensures var d, id := ts[k].domains[n], ts[k].id;
            Listed(ts,
                   (if !IsDomain(d) then [InvalidDomain(id, d)] else [])
                   + (if d in claimed && claimed[d] != id then [DomainCollision(d, claimed[d], id)] else []),
                   sites, Site(k, 1, n, 0), Site(k, 1, n + 1, 0))
  {
    hide IsDomain, Listed;
    var d, id := ts[k].domains[n], ts[k].id;
    var a := if !IsDomain(d) then [InvalidDomain(id, d)] else [];
    var b := if d in claimed && claimed[d] != id then [DomainCollision(d, claimed[d], id)] else [];
    var x := Single(ts, a, Site(k, 1, n, 0), Site(k, 1, n, 1));
    var y := Single(ts, b, Site(k, 1, n, 1), Site(k, 1, n + 1, 0));
    Append(ts, a, x, b, y, Site(k, 1, n, 0), Site(k, 1, n, 1), Site(k, 1, n + 1, 0));
    sites := x + y;
  }

  lemma {:induction false} DomainsListed(ts: seq<Tenant>, k: nat, n: nat) returns (sites: seq<Site>)
    requires k < |ts| && n <= |ts[k].domains|
    ensures Listed(ts, DomainErrors(Claims(ts[..k]), ts[k].id, ts[k].domains[..n]), sites,
                   Site(k, 1, 0, 0), Site(k, 1, n, 0))
  {
    hide IsDomain, Listed, Claims, ClaimAll, FirstLister;
    if n == 0 {
      sites := Nothing(ts, Site(k, 1, 0, 0), Site(k, 1, 0, 0));
    } else {
      var ds, id, m := ts[k].domains, ts[k].id, Claims(ts[..k]);
      var d := ds[n - 1];
      assert ds[..n][..n - 1] == ds[..n - 1];
      var init := DomainsListed(ts, k, n - 1);
      var claimed := ClaimAll(m, id, ds[..n - 1]);
      ClaimsAre(m, id, ds[..n - 1]);
      assert d in claimed && claimed[d] != id <==> d in m && m[d] != id;
      Colliding(ts, k, d);
      var last := OneDomain(ts, k, n - 1, claimed);
      var a := DomainErrors(m, id, ds[..n - 1]);
      var b := if !IsDomain(d) then [InvalidDomain(id, d)] else [];
      var c := if d in claimed && claimed[d] != id then [DomainCollision(d, claimed[d], id)] else [];
      Append(ts, a, init, b + c, last, Site(k, 1, 0, 0), Site(k, 1, n - 1, 0), Site(k, 1, n, 0));
      Assoc(a, b, c);
      sites := init + last;
    }
  }

  lemma {:induction false} Colliding(ts: seq<Tenant>, k: nat, d: string)
    requires k < |ts|
    ensures var m, id := Claims(ts[..k]), ts[k].id;
            && (d in m && m[d] != id <==> exists i :: 0 <= i < k && FirstLister(ts, d, i) && ts[i].id != id)
            && (d in m ==> exists i :: 0 <= i < k && FirstLister(ts, d, i) && ts[i].id == m[d])
  {
    hide Claims, FirstLister;
    var m := Claims(ts[..k]);
    if d in m {
      ClaimedBefore(ts, k, d, m[d]);
    }
    forall i | 0 <= i < k && FirstLister(ts, d, i)
      ensures d in m && m[d] == ts[i].id
    {
      ClaimedBefore(ts, k, d, ts[i].id);
    }
  }

  lemma {:induction false} Nothing(ts: seq<Tenant>, lo: Site, hi: Site) returns (sites: seq<Site>)
    requires forall s, e :: Fails(ts, s, e) ==> Before(s, lo) || !Before(s, hi)
    ensures Listed(ts, [], sites, lo, hi) && sites == []
  {
    hide Fails;
    sites := [];
  }

  // ---- the routes -----------------------------------------------------------------------------------

  lemma {:induction false} OneRoute(ts: seq<Tenant>, k: nat, n: nat) returns (sites: seq<Site>)
    requires k < |ts| && n < |ts[k].routes|
    ensures var r, id := ts[k].routes[n], ts[k].id;
            Listed(ts,
                   (if !StartsWithSlash(r.path) then [InvalidRoutePath(id, n)] else []) + ActionErrors(id, n, r.action),
                   sites, Site(k, 2, n, 0), Site(k, 2, n + 1, 0))
  {
    hide StartsWithSlash, Listed;
    var r, id := ts[k].routes[n], ts[k].id;
    var a := if !StartsWithSlash(r.path) then [InvalidRoutePath(id, n)] else [];
    var b := ActionErrors(id, n, r.action);
    var x := Single(ts, a, Site(k, 2, n, 0), Site(k, 2, n, 1));
    var y := Single(ts, b, Site(k, 2, n, 1), Site(k, 2, n + 1, 0));
    Append(ts, a, x, b, y, Site(k, 2, n, 0), Site(k, 2, n, 1), Site(k, 2, n + 1, 0));
    sites := x + y;
  }

  lemma {:induction false} RoutesListed(ts: seq<Tenant>, k: nat, n: nat) returns (sites: seq<Site>)
    requires k < |ts| && n <= |ts[k].routes|
    ensures Listed(ts, RouteErrors(ts[k].id, ts[k].routes[..n]), sites, Site(k, 2, 0, 0), Site(k, 2, n, 0))
  {
    hide StartsWithSlash, Listed, ActionErrors;
    if n == 0 {
      sites := Nothing(ts, Site(k, 2, 0, 0), Site(k, 2, 0, 0));
    } else {
      var rs, id := ts[k].routes, ts[k].id;
      assert rs[..n][..n - 1] == rs[..n - 1];
      var init := RoutesListed(ts, k, n - 1);
      var last := OneRoute(ts, k, n - 1);
      var a := RouteErrors(id, rs[..n - 1]);
      var b := if !StartsWithSlash(rs[n - 1].path) then [InvalidRoutePath(id, n - 1)] else [];
      var c := ActionErrors(id, n - 1, rs[n - 1].action);
      Append(ts, a, init, b + c, last, Site(k, 2, 0, 0), Site(k, 2, n - 1, 0), Site(k, 2, n, 0));
      Assoc(a, b, c);
      sites := init + last;
    }
  }

  // ---- the list ---------------------------------------------------------------------------------------

  lemma {:induction false} OwnListed(ts: seq<Tenant>, k: nat) returns (sites: seq<Site>)
    requires k < |ts|
    ensures Listed(ts, OwnErrors(ts[..k + 1]), sites, Site(k, 0, 0, 0), Site(k + 1, 0, 0, 0))
  {
    hide Listed, IdErrors, DomainErrors, RouteErrors, Claims, Ids, IsTenantId, IsDomain, StartsWithSlash;
    var t := ts[k];
    var m, n := |t.domains|, |t.routes|;
    assert ts[..k + 1][..k] == ts[..k] && t.domains[..m] == t.domains && t.routes[..n] == t.routes;
    var a := IdListed(ts, k);
    var b := DomainsListed(ts, k, m);
    var c := RoutesListed(ts, k, n);
    var es := IdErrors(t, Ids(ts[..k]));
    var fs := DomainErrors(Claims(ts[..k]), t.id, t.domains);
    var gs := RouteErrors(t.id, t.routes);
    Append(ts, es, a, fs, b, Site(k, 0, 0, 0), Site(k, 1, 0, 0), Site(k, 1, m, 0));
    var gap := Nothing(ts, Site(k, 1, m, 0), Site(k, 2, 0, 0));
    Append(ts, es + fs, a + b, [], gap, Site(k, 0, 0, 0), Site(k, 1, m, 0), Site(k, 2, 0, 0));
    var end := Nothing(ts, Site(k, 2, n, 0), Site(k + 1, 0, 0, 0));
    Append(ts, gs, c, [], end, Site(k, 2, 0, 0), Site(k, 2, n, 0), Site(k + 1, 0, 0, 0));
    assert es + fs + [] == es + fs && gs + [] == gs;
    Append(ts, es + fs, a + b + gap, gs, c + end, Site(k, 0, 0, 0), Site(k, 2, 0, 0), Site(k + 1, 0, 0, 0));
    sites := a + b + gap + (c + end);
  }

  lemma {:induction false} TenantsListed(ts: seq<Tenant>, k: nat) returns (sites: seq<Site>)
    requires k <= |ts|
    ensures Listed(ts, TenantErrors(ts[..k]), sites, Site(0, 0, 0, 0), Site(k, 0, 0, 0))
  {
    hide Listed, OwnErrors, Fails;
    if k == 0 {
      sites := Nothing(ts, Site(0, 0, 0, 0), Site(0, 0, 0, 0));
    } else {
      assert ts[..k][..k - 1] == ts[..k - 1];
      var init := TenantsListed(ts, k - 1);
      var last := OwnListed(ts, k - 1);
      Append(ts, TenantErrors(ts[..k - 1]), init, OwnErrors(ts[..k]), last,
             Site(0, 0, 0, 0), Site(k - 1, 0, 0, 0), Site(k, 0, 0, 0));
      sites := init + last;
    }
  }

  /** The list has one error for every check that fails and no other, in the order of the checks: tenant
      by tenant, the id before the domains before the routes, item by item, and in each item the first
      check before the second. */
  lemma {:induction false} ErrorsInOrder(ts: seq<Tenant>) returns (sites: seq<Site>)
    ensures var es := TenantErrors(ts);
            && |sites| == |es|
            && (forall i :: 0 <= i < |es| ==> Fails(ts, sites[i], es[i]))
            && (forall i, k :: 0 <= i < k < |es| ==> Before(sites[i], sites[k]))
            && forall s, e :: Fails(ts, s, e) ==> s in sites
  {
    assert ts[..|ts|] == ts;
    sites := TenantsListed(ts, |ts|);
  }
}
