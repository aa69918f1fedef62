/**
 The tenants file and its validation: every check runs and every violation is reported.
 */
module Tenants {
  import opened Common
  import opened Text

  datatype RouteAction =
    | Proxy(upstream: string, hostHeader: Option<string>, sse: Option<bool>)
    | FileServer(root: string, cacheControl: Option<string>, tryFiles: Option<seq<string>>,
                 stripPathPrefix: Option<string>)

  datatype Route = Route(path: string, action: RouteAction)

  datatype Redirect = Redirect(fromHost: string, to: string, permanent: bool)

  datatype Tenant = Tenant(id: string, domains: seq<string>, enabled: bool, routes: seq<Route>,
                           redirects: seq<Redirect>)

  datatype TenantsFile = TenantsFile(schemaVersion: nat, tenants: seq<Tenant>)

  datatype ValidationError =
    | UnsupportedSchemaVersion(version: nat)
    | InvalidTenantId(id: string)
    | InvalidDomain(id: string, domain: string)
    | DuplicateTenantId(id: string)
    | DomainCollision(domain: string, a: string, b: string)
    | InvalidRoutePath(id: string, index: nat)
    | ProxyMissingUpstream(id: string, index: nat)
    | FileServerInvalidRoot(id: string, index: nat)

  // ---- the formats ------------------------------------------------------------------------

  predicate LowerOrDigit(c: char) {
    'a' <= c <= 'z' || '0' <= c <= '9'
  }

  /** `^[a-z0-9][a-z0-9-]{1,30}[a-z0-9]$`. */
  predicate IsTenantId(s: string) {
    && 3 <= |s| <= 32
    && LowerOrDigit(s[0]) && LowerOrDigit(s[|s| - 1])
    && forall i :: 0 <= i < |s| ==> LowerOrDigit(s[i]) || s[i] == '-'
  }

  predicate Letter(c: char) {
    'a' <= c <= 'z' || 'A' <= c <= 'Z'
  }

  predicate IsLabel(s: string) {
    && s != ""
    && (Letter(s[0]) || IsDigit(s[0])) && (Letter(s[|s| - 1]) || IsDigit(s[|s| - 1]))
    && forall i :: 0 <= i < |s| ==> Letter(s[i]) || IsDigit(s[i]) || s[i] == '-'
  }

  /** `^([a-zA-Z0-9]([a-zA-Z0-9-]*[a-zA-Z0-9])?\.)+[a-zA-Z]{2,}$`, label by label. */
  predicate IsDomain(s: string) {
    var labels := Split(s, '.');
    var top := labels[|labels| - 1];
    && |labels| >= 2
    && (forall i :: 0 <= i < |labels| - 1 ==> IsLabel(labels[i]))
    && |top| >= 2 && forall i :: 0 <= i < |top| ==> Letter(top[i])
  }

  predicate StartsWithSlash(s: string): (r: bool)
    ensures r <==> exists rest :: s == "/" + rest
  {
    assert s != "" && s[0] == '/' ==> s == "/" + s[1..];
    s != "" && s[0] == '/'
  }

  // ---- the errors, tenant by tenant -----------------------------------------------------------

  /** The tenant that claims each domain first. */
  function Claims(ts: seq<Tenant>): map<string, string> {
    if ts == [] then map[] else ClaimAll(Claims(ts[..|ts| - 1]), ts[|ts| - 1].id, ts[|ts| - 1].domains)
  }

  function ClaimAll(m: map<string, string>, id: string, ds: seq<string>): map<string, string> {
    if ds == [] then m
    else
      var n := |ds| - 1;
      var before := ClaimAll(m, id, ds[..n]);
      if ds[n] in before then before else before[ds[n] := id]
  }

  function Ids(ts: seq<Tenant>): set<string> {
    set t | t in ts :: t.id
  }

  function IdErrors(t: Tenant, seen: set<string>): seq<ValidationError> {
    (if t.id in seen then [DuplicateTenantId(t.id)] else [])
    + (if !IsTenantId(t.id) then [InvalidTenantId(t.id)] else [])
  }

  function DomainErrors(m: map<string, string>, id: string, ds: seq<string>): seq<ValidationError> {
    if ds == [] then []
    else
      var n := |ds| - 1;
      var claimed := ClaimAll(m, id, ds[..n]);
      DomainErrors(m, id, ds[..n])
      + (if !IsDomain(ds[n]) then [InvalidDomain(id, ds[n])] else [])
      + (if ds[n] in claimed && claimed[ds[n]] != id then [DomainCollision(ds[n], claimed[ds[n]], id)] else [])
  }

  function ActionErrors(id: string, index: nat, a: RouteAction): seq<ValidationError> {
    match a
    case Proxy(upstream, _, _) => if upstream == "" then [ProxyMissingUpstream(id, index)] else []
    case FileServer(root, _, _, _) => if !StartsWithSlash(root) then [FileServerInvalidRoot(id, index)] else []
  }

  function RouteErrors(id: string, rs: seq<Route>): seq<ValidationError> {
    if rs == [] then []
    else
      var n := |rs| - 1;
      RouteErrors(id, rs[..n])
      + (if !StartsWithSlash(rs[n].path) then [InvalidRoutePath(id, n)] else [])
      + ActionErrors(id, n, rs[n].action)
  }

  /** The errors the last tenant adds, given those before it. */
  function OwnErrors(ts: seq<Tenant>): seq<ValidationError>
    requires ts != []
  {
    var n := |ts| - 1;
    IdErrors(ts[n], Ids(ts[..n]))
    + DomainErrors(Claims(ts[..n]), ts[n].id, ts[n].domains)
    + RouteErrors(ts[n].id, ts[n].routes)
  }

  function TenantErrors(ts: seq<Tenant>): seq<ValidationError> {
    if ts == [] then []
    else
      var n := |ts| - 1;
      TenantErrors(ts[..n]) + OwnErrors(ts)
  }

  function FileErrors(f: TenantsFile): seq<ValidationError> {
    (if f.schemaVersion != 1 then [UnsupportedSchemaVersion(f.schemaVersion)] else []) + TenantErrors(f.tenants)
  }

  // ---- the loops --------------------------------------------------------------------------

  method CheckDomains(m: map<string, string>, id: string, ds: seq<string>)
    returns (errors: seq<ValidationError>, claims: map<string, string>)
    ensures errors == DomainErrors(m, id, ds)
    ensures claims == ClaimAll(m, id, ds)
  {
    hide IsDomain;
    errors, claims := [], m;
    var n := 0;
    while n < |ds|
      invariant 0 <= n <= |ds|
      invariant errors == DomainErrors(m, id, ds[..n])
      invariant claims == ClaimAll(m, id, ds[..n])
    {
      assert ds[..n + 1][..n] == ds[..n];
      if !IsDomain(ds[n]) {
        errors := errors + [InvalidDomain(id, ds[n])];
      }
      if ds[n] in claims {
        if claims[ds[n]] != id {
          errors := errors + [DomainCollision(ds[n], claims[ds[n]], id)];
        }
      } else {
        claims := claims[ds[n] := id];
      }
      n := n + 1;
    }
    assert ds[..n] == ds;
  }

  method CheckRoutes(id: string, rs: seq<Route>) returns (errors: seq<ValidationError>)
    ensures errors == RouteErrors(id, rs)
  {
    errors := [];
    var n := 0;
    while n < |rs|
      invariant 0 <= n <= |rs|
      invariant errors == RouteErrors(id, rs[..n])
    {
      assert rs[..n + 1][..n] == rs[..n];
      if !StartsWithSlash(rs[n].path) {
        errors := errors + [InvalidRoutePath(id, n)];
      }
      errors := errors + ActionErrors(id, n, rs[n].action);
      n := n + 1;
    }
    assert rs[..n] == rs;
  }

  /** `validate`: the nested loops over tenants, domains and routes. */
  method Validate(file: TenantsFile) returns (errors: seq<ValidationError>)
    ensures errors == FileErrors(file)
    ensures errors == [] <==> WellFormed(file)
  {
    hide IdErrors, DomainErrors, RouteErrors, ClaimAll, Claims, Ids, TenantErrors, WellFormed;
    errors := if file.schemaVersion != 1 then [UnsupportedSchemaVersion(file.schemaVersion)] else [];
    var start := errors;
    var seenIds: set<string>, seenDomains: map<string, string> := {}, map[];
    var ts := file.tenants;
    var n := 0;
    NoTenants();
    while n < |ts|
      invariant 0 <= n <= |ts|
      invariant errors == start + TenantErrors(ts[..n])
      invariant seenIds == Ids(ts[..n])
      invariant seenDomains == Claims(ts[..n])
    {
      OneMoreTenant(ts, n);
      var t := ts[n];
      var idErrors := CheckId(t, seenIds);
      seenIds := seenIds + {t.id};
      var domainErrors, claims := CheckDomains(seenDomains, t.id, t.domains);
      seenDomains := claims;
      var routeErrors := CheckRoutes(t.id, t.routes);
      var all := idErrors + domainErrors + routeErrors;
      Assoc(start, TenantErrors(ts[..n]), all);
      errors := errors + all;
      n := n + 1;
    }
    assert ts[..n] == ts;
    NoErrorsIffWellFormed(file);
  }

  lemma NoTenants()
    ensures TenantErrors([]) == [] && Ids([]) == {} && Claims([]) == map[]
  {
  }

  /** One turn of the loop, on the specification. */
  lemma {:induction false} OneMoreTenant(ts: seq<Tenant>, n: nat)
    requires n < |ts|
    ensures var t, seen, claims := ts[n], Ids(ts[..n]), Claims(ts[..n]);
            && var own := IdErrors(t, seen) + DomainErrors(claims, t.id, t.domains) + RouteErrors(t.id, t.routes);
            && TenantErrors(ts[..n + 1]) == TenantErrors(ts[..n]) + own
            && Ids(ts[..n + 1]) == seen + {t.id}
            && Claims(ts[..n + 1]) == ClaimAll(claims, t.id, t.domains)
  {
    hide IdErrors, DomainErrors, RouteErrors, ClaimAll;
    assert ts[..n + 1][..n] == ts[..n];
    assert ts[..n + 1] == ts[..n] + [ts[n]];
  }

  method CheckId(t: Tenant, seen: set<string>) returns (errors: seq<ValidationError>)
    ensures errors == IdErrors(t, seen)
  {
    hide IsTenantId;
    errors := [];
    if t.id in seen {
      errors := errors + [DuplicateTenantId(t.id)];
    }
    if !IsTenantId(t.id) {
      errors := errors + [InvalidTenantId(t.id)];
    }
  }

  // ---- what a clean file is -----------------------------------------------------------------

  predicate RouteOk(r: Route) {
    && StartsWithSlash(r.path)
    && match r.action
       case Proxy(upstream, _, _) => upstream != ""
       case FileServer(root, _, _, _) => StartsWithSlash(root)
  }

  predicate TenantOk(t: Tenant) {
    && IsTenantId(t.id)
    && (forall i :: 0 <= i < |t.domains| ==> IsDomain(t.domains[i]))
    && (forall i :: 0 <= i < |t.routes| ==> RouteOk(t.routes[i]))
  }

  /** The declarative meaning of a clean file: every item well formed, tenant ids pairwise
      distinct, and no domain listed by two tenants. */
  ghost predicate WellFormed(f: TenantsFile) {
    && f.schemaVersion == 1
    && (forall i :: 0 <= i < |f.tenants| ==> TenantOk(f.tenants[i]))
    && Apart(f.tenants)
  }

  ghost predicate Apart(ts: seq<Tenant>) {
    forall i, k :: 0 <= i < k < |ts| ==>
      && ts[i].id != ts[k].id
      && forall d :: d in ts[i].domains ==> d !in ts[k].domains
  }

  lemma {:induction false} ClaimsAre(m: map<string, string>, id: string, ds: seq<string>)
    ensures var c := ClaimAll(m, id, ds);
            && (forall d :: d in c <==> d in m || d in ds)
            && (forall d :: d in m ==> c[d] == m[d])
            && (forall d :: d in ds && d !in m ==> c[d] == id)
  {
    if ds != [] {
      ClaimsAre(m, id, ds[..|ds| - 1]);
      assert ds == ds[..|ds| - 1] + [ds[|ds| - 1]];
    }
  }

  lemma {:induction false} NoDomainErrors(m: map<string, string>, id: string, ds: seq<string>)
    ensures DomainErrors(m, id, ds) == [] <==>
            (forall i :: 0 <= i < |ds| ==> IsDomain(ds[i])) && (forall d :: d in ds && d in m ==> m[d] == id)
  {
    hide IsDomain, ClaimAll;
    if ds != [] {
      var n := |ds| - 1;
      NoDomainErrors(m, id, ds[..n]);
      ClaimsAre(m, id, ds[..n]);
      assert ds == ds[..n] + [ds[n]];
    }
  }

  lemma {:induction false} NoRouteErrors(id: string, rs: seq<Route>)
    ensures RouteErrors(id, rs) == [] <==> forall i :: 0 <= i < |rs| ==> RouteOk(rs[i])
  {
    hide StartsWithSlash;
    if rs != [] {
      NoRouteErrors(id, rs[..|rs| - 1]);
      assert rs == rs[..|rs| - 1] + [rs[|rs| - 1]];
    }
  }

  ghost predicate FirstLister(ts: seq<Tenant>, d: string, i: int) {
    && 0 <= i < |ts|
    && d in ts[i].domains
    && forall k :: 0 <= k < i ==> d !in ts[k].domains
  }

  /** The claims are exactly the listed domains, each under the id of the first tenant to list it. */
  lemma {:induction false} ClaimsOf(ts: seq<Tenant>)
    ensures forall d :: d in Claims(ts) ==> exists i :: FirstLister(ts, d, i) && Claims(ts)[d] == ts[i].id
    ensures forall i, d :: 0 <= i < |ts| && d in ts[i].domains ==> d in Claims(ts)
  {
    hide ClaimAll;
    if ts != [] {
      var n := |ts| - 1;
      ClaimsOf(ts[..n]);
      ClaimsAre(Claims(ts[..n]), ts[n].id, ts[n].domains);
      forall d | d in Claims(ts)
        ensures exists i :: FirstLister(ts, d, i) && Claims(ts)[d] == ts[i].id
      {
        if d in Claims(ts[..n]) {
          var i :| FirstLister(ts[..n], d, i) && Claims(ts[..n])[d] == ts[..n][i].id;
          assert FirstLister(ts, d, i);
        } else {
          forall k | 0 <= k < n
            ensures d !in ts[k].domains
          {
            assert ts[..n][k] == ts[k];
          }
          assert FirstLister(ts, d, n);
        }
      }
      forall i, d | 0 <= i < |ts| && d in ts[i].domains
        ensures d in Claims(ts)
      {
        if i < n {
          assert d in ts[..n][i].domains;
          assert d in Claims(ts[..n]);
        }
        assert Claims(ts) == ClaimAll(Claims(ts[..n]), ts[n].id, ts[n].domains);
      }
    }
  }

  ghost predicate Unclaimed(t: Tenant, claims: map<string, string>) {
    forall d :: d in t.domains && d in claims ==> claims[d] == t.id
  }

  lemma {:induction false} NoOwnErrors(ts: seq<Tenant>)
    requires ts != []
    ensures var n := |ts| - 1;
            OwnErrors(ts) == [] <==>
              TenantOk(ts[n]) && ts[n].id !in Ids(ts[..n]) && Unclaimed(ts[n], Claims(ts[..n]))
  {
    hide ClaimAll, IsTenantId, IsDomain, RouteOk, DomainErrors, RouteErrors, Claims, Ids;
    var n := |ts| - 1;
    NoDomainErrors(Claims(ts[..n]), ts[n].id, ts[n].domains);
    NoRouteErrors(ts[n].id, ts[n].routes);
  }

  lemma {:induction false} NoTenantErrors(ts: seq<Tenant>)
    ensures TenantErrors(ts) == [] <==> (forall i :: 0 <= i < |ts| ==> TenantOk(ts[i])) && Apart(ts)
  {
    hide TenantOk, Apart, OwnErrors, Claims, Ids, Unclaimed;
    if ts == [] {
      ApartEmpty();
    } else {
      var n := |ts| - 1;
      NoTenantErrors(ts[..n]);
      NoOwnErrors(ts);
      ApartSnoc(ts);
      assert forall i :: 0 <= i < n ==> ts[..n][i] == ts[i];
    }
  }

  lemma ApartEmpty()
    ensures Apart([])
  {
  }

  /** One more tenant stays apart exactly when its id is new and its domains are unclaimed. */
  lemma {:induction false} ApartSnoc(ts: seq<Tenant>)
    requires ts != []
    ensures var n := |ts| - 1;
            Apart(ts) <==>
              && Apart(ts[..n])
              && ts[n].id !in Ids(ts[..n])
              && Unclaimed(ts[n], Claims(ts[..n]))
  {
    hide Claims;
    var n := |ts| - 1;
    var init := ts[..n];
    ClaimsOf(init);
    assert forall i :: 0 <= i < n ==> init[i] == ts[i];
    if Apart(ts) {
      assert forall i :: 0 <= i < n ==> ts[i].id != ts[n].id;
    }
    if ts[n].id !in Ids(init) {
      assert forall i :: 0 <= i < n ==> init[i] in init;
    }
  }

  /** The complete verdict: no error if and only if the file is well formed. */
  lemma {:induction false} NoErrorsIffWellFormed(f: TenantsFile)
    ensures FileErrors(f) == [] <==> WellFormed(f)
  {
    hide TenantErrors, TenantOk, Apart;
    NoTenantErrors(f.tenants);
  }

  // ---- the list is sound and complete ----------------------------------------------------------

  /** Tenant `k` gives cause for the error, in view of the tenants before it. */
  ghost predicate Deserves(ts: seq<Tenant>, k: nat, e: ValidationError)
    requires k < |ts|
  {
    var t := ts[k];
    match e
    case UnsupportedSchemaVersion(_) => false
    case InvalidTenantId(id) => t.id == id && !IsTenantId(id)
    case DuplicateTenantId(id) => t.id == id && exists i :: 0 <= i < k && ts[i].id == id
    case InvalidDomain(id, d) => t.id == id && d in t.domains && !IsDomain(d)
    case DomainCollision(d, a, b) =>
      t.id == b && d in t.domains && a != b && exists i :: 0 <= i < k && FirstLister(ts, d, i) && ts[i].id == a
    case InvalidRoutePath(id, n) => t.id == id && n < |t.routes| && !StartsWithSlash(t.routes[n].path)
    case ProxyMissingUpstream(id, n) =>
      t.id == id && n < |t.routes| && t.routes[n].action.Proxy? && t.routes[n].action.upstream == ""
    case FileServerInvalidRoot(id, n) =>
      t.id == id && n < |t.routes| && t.routes[n].action.FileServer? && !StartsWithSlash(t.routes[n].action.root)
  }

  lemma {:induction false} DomainErrorsAre(m: map<string, string>, id: string, ds: seq<string>, e: ValidationError)
    ensures e in DomainErrors(m, id, ds) <==>
            || (e.InvalidDomain? && e.id == id && e.domain in ds && !IsDomain(e.domain))
            || (e.DomainCollision? && e.domain in ds && e.domain in m && m[e.domain] == e.a && e.b == id && e.a != id)
  {
    hide IsDomain, ClaimAll;
    if ds != [] {
      var n := |ds| - 1;
      DomainErrorsAre(m, id, ds[..n], e);
      ClaimsAre(m, id, ds[..n]);
      assert ds == ds[..n] + [ds[n]];
    }
  }

  lemma ActionErrorsAre(id: string, n: nat, a: RouteAction, e: ValidationError)
    ensures e in ActionErrors(id, n, a) <==>
            || (e == ProxyMissingUpstream(id, n) && a.Proxy? && a.upstream == "")
            || (e == FileServerInvalidRoot(id, n) && a.FileServer? && !StartsWithSlash(a.root))
  {
  }

  lemma {:induction false} RouteErrorsAre(id: string, rs: seq<Route>, e: ValidationError)
    ensures e in RouteErrors(id, rs) <==>
            || (e.InvalidRoutePath? && e.id == id && e.index < |rs| && !StartsWithSlash(rs[e.index].path))
            || (e.ProxyMissingUpstream? && e.id == id && e.index < |rs|
                && rs[e.index].action.Proxy? && rs[e.index].action.upstream == "")
            || (e.FileServerInvalidRoot? && e.id == id && e.index < |rs|
                && rs[e.index].action.FileServer? && !StartsWithSlash(rs[e.index].action.root))
  {
    hide StartsWithSlash, ActionErrors;
    if rs != [] {
      var n := |rs| - 1;
      RouteErrorsAre(id, rs[..n], e);
      ActionErrorsAre(id, n, rs[n].action, e);
    }
  }

  /** A domain is claimed under `a` exactly when its first lister has that id. */
  lemma {:induction false} ClaimedBy(ts: seq<Tenant>, d: string, a: string)
    ensures d in Claims(ts) && Claims(ts)[d] == a <==> exists i :: FirstLister(ts, d, i) && ts[i].id == a
  {
    hide Claims;
    ClaimsOf(ts);
    if i :| FirstLister(ts, d, i) && ts[i].id == a {
      var j :| FirstLister(ts, d, j) && Claims(ts)[d] == ts[j].id;
      assert j == i;
    }
  }

  lemma {:induction false} OwnErrorsAre(ts: seq<Tenant>, e: ValidationError)
    requires ts != []
    ensures e in OwnErrors(ts) <==> Deserves(ts, |ts| - 1, e)
  {
    hide DomainErrors, RouteErrors, IsTenantId, IsDomain, Claims, StartsWithSlash, Ids;
    var n := |ts| - 1;
    DomainErrorsAre(Claims(ts[..n]), ts[n].id, ts[n].domains, e);
    RouteErrorsAre(ts[n].id, ts[n].routes, e);
    IdSeen(ts);
    if e.DomainCollision? {
      ClaimedBy(ts[..n], e.domain, e.a);
      FirstInPrefix(ts, e.domain, e.a);
    }
  }

  lemma {:induction false} IdSeen(ts: seq<Tenant>)
    requires ts != []
    ensures var n := |ts| - 1;
            ts[n].id in Ids(ts[..n]) <==> exists i :: 0 <= i < n && ts[i].id == ts[n].id
  {
    var n := |ts| - 1;
    if i :| 0 <= i < n && ts[i].id == ts[n].id {
      assert ts[i] in ts[..n];
    }
  }

  lemma {:induction false} FirstInPrefix(ts: seq<Tenant>, d: string, a: string)
    requires ts != []
    ensures var n := |ts| - 1;
            (exists i :: FirstLister(ts[..n], d, i) && ts[..n][i].id == a) <==>
            (exists i :: 0 <= i < n && FirstLister(ts, d, i) && ts[i].id == a)
  {
    hide FirstLister;
    var n := |ts| - 1;
    forall i
      ensures FirstLister(ts[..n], d, i) <==> i < n && FirstLister(ts, d, i)
      ensures FirstLister(ts, d, i) ==> 0 <= i < |ts|
    {
      FirstListerPrefix(ts, d, i);
    }
  }

  lemma FirstListerPrefix(ts: seq<Tenant>, d: string, i: int)
    requires ts != []
    ensures FirstLister(ts, d, i) ==> 0 <= i < |ts|
    ensures FirstLister(ts[..|ts| - 1], d, i) <==> i < |ts| - 1 && FirstLister(ts, d, i)
  {
  }

  lemma {:induction false} DeservedEarlier(ts: seq<Tenant>, k: nat, e: ValidationError)
    requires k < |ts| - 1
    ensures Deserves(ts[..|ts| - 1], k, e) <==> Deserves(ts, k, e)
  {
    hide IsTenantId, IsDomain, StartsWithSlash;
    var init := ts[..|ts| - 1];
    assert forall i :: 0 <= i < |init| ==> init[i] == ts[i];
    if e.DomainCollision? {
      assert forall i :: 0 <= i < k ==> (FirstLister(init, e.domain, i) <==> FirstLister(ts, e.domain, i));
    }
  }

  /** The list is complete and sound: an error is reported exactly when some tenant deserves it. */
  lemma {:induction false} ErrorsAreDeserved(ts: seq<Tenant>, e: ValidationError)
    ensures e in TenantErrors(ts) <==> exists k :: 0 <= k < |ts| && Deserves(ts, k, e)
  {
    hide OwnErrors, Deserves;
    if ts != [] {
      var n := |ts| - 1;
      ErrorsAreDeserved(ts[..n], e);
      OwnErrorsAre(ts, e);
      forall k | 0 <= k < n
        ensures Deserves(ts[..n], k, e) <==> Deserves(ts, k, e)
      {
        DeservedEarlier(ts, k, e);
      }
    }
  }
}
