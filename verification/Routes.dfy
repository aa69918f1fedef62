/**
 The renderer from tenants to proxy route objects, and the shape validator that guards it.
 */
module Routes {
  import opened Common
  import opened Text
  import opened Tenants

  /** Integers and other numbers are kept apart, as their parsed values compare unequal. */
  datatype Json =
    | Null
    | Str(text: string)
    | Num(value: int)
    | Float(number: real)
    | Bool(flag: bool)
    | Arr(items: seq<Json>)
    | Obj(fields: map<string, Json>)

  function Strings(ss: seq<string>): (r: Json)
    ensures r.Arr? && |r.items| == |ss|
    ensures forall i :: 0 <= i < |ss| ==> r.items[i] == Str(ss[i])
  {
    Arr(seq(|ss|, i requires 0 <= i < |ss| => Str(ss[i])))
  }

  // ---- sub-routes ------------------------------------------------------------------------

  predicate StartsWith(s: string, prefix: string) {
    |prefix| <= |s| && s[..|prefix|] == prefix
  }

  function StripScheme(url: string): string {
    if StartsWith(url, "https://") then url[8..] else if StartsWith(url, "http://") then url[7..] else url
  }

  /** Host and optional port: the text between the scheme and the first slash. */
  function HostOf(url: string): string {
    Split(StripScheme(url), '/')[0]
  }

  function Dial(url: string): string {
    var port := if StartsWith(url, "https://") then "443" else "80";
    if ':' in HostOf(url) then HostOf(url) else HostOf(url) + ":" + port
  }

  function ProxyHandler(upstream: string, hostHeader: Option<string>, sse: Option<bool>): Json {
    var host := if hostHeader.Some? then hostHeader.value else HostOf(upstream);
    var base := map[
      "handler" := Str("reverse_proxy"),
      "upstreams" := Arr([Obj(map["dial" := Str(Dial(upstream))])]),
      "headers" := Obj(map["request" := Obj(map["set" := Obj(map["Host" := Strings([host])])])])];
    var tls := if StartsWith(upstream, "https://")
               then base["transport" := Obj(map["protocol" := Str("http"), "tls" := Obj(map[])])] else base;
    Obj(if sse == Some(true) then tls["flush_interval" := Num(-1)] else tls)
  }

  function FileHandlers(root: string, cacheControl: Option<string>, tryFiles: Option<seq<string>>,
                        strip: Option<string>): seq<Json>
  {
    (if strip.Some? then [Obj(map["handler" := Str("rewrite"), "strip_path_prefix" := Str(strip.value)])] else [])
    + (if tryFiles.Some? then [Fallback(root, tryFiles.value)] else [])
    + [Obj(map["handler" := Str("file_server"), "root" := Str(root)])]
    + (if cacheControl.Some?
       then [Obj(map["handler" := Str("headers"),
                     "response" := Obj(map["set" := Obj(map["Cache-Control" := Strings([cacheControl.value])])])])]
       else [])
  }

  function Fallback(root: string, files: seq<string>): Json {
    Obj(map["handler" := Str("subroute"),
            "routes" := Arr([Obj(map[
              "match" := Arr([Obj(map["file" := Obj(map["try_files" := Strings(files), "root" := Str(root)])])]),
              "handle" := Arr([Obj(map["handler" := Str("rewrite"),
                                       "uri" := Str("{http.matchers.file.relative}")])])])])])
  }

  function RenderRoute(r: Route): Json {
    var handlers := match r.action
                    case Proxy(upstream, host, sse) => [ProxyHandler(upstream, host, sse)]
                    case FileServer(root, cache, files, strip) => FileHandlers(root, cache, files, strip);
    Obj(map["match" := Arr([Obj(map["path" := Strings([r.path])])]), "handle" := Arr(handlers)])
  }

  // ---- tenant routes -----------------------------------------------------------------------

  function MainId(id: string): string {
    "tenant:" + id
  }

  function RedirectId(id: string, host: string): string {
    "tenant:" + id + ":redirect:" + host
  }

  function HostMatch(hosts: seq<string>): Json {
    Arr([Obj(map["host" := Strings(hosts)])])
  }

  function RenderMain(t: Tenant): Json {
    var sub := seq(|t.routes|, i requires 0 <= i < |t.routes| => RenderRoute(t.routes[i]));
    Obj(map["@id" := Str(MainId(t.id)),
            "match" := HostMatch(t.domains),
            "handle" := Arr([Obj(map["handler" := Str("subroute"), "routes" := Arr(sub)])]),
            "terminal" := Bool(true)])
  }

  function RenderRedirect(id: string, r: Redirect): Json {
    Obj(map["@id" := Str(RedirectId(id, r.fromHost)),
            "match" := HostMatch([r.fromHost]),
            "handle" := Arr([Obj(map["handler" := Str("static_response"),
                                     "headers" := Obj(map["Location" := Strings([r.to])]),
                                     "status_code" := Num(if r.permanent then 308 else 307)])]),
            "terminal" := Bool(true)])
  }

  function RedirectRoutes(id: string, rs: seq<Redirect>): seq<Json> {
    seq(|rs|, i requires 0 <= i < |rs| => RenderRedirect(id, rs[i]))
  }

  function AllRoutes(ts: seq<Tenant>): seq<Json> {
    if ts == [] then []
    else
      var t := ts[|ts| - 1];
      AllRoutes(ts[..|ts| - 1]) + (if t.enabled then [RenderMain(t)] + RedirectRoutes(t.id, t.redirects) else [])
  }

  /** `render_tenant_routes`: one pass over the tenants, with the disabled ones skipped. */
  method RenderTenantRoutes(ts: seq<Tenant>) returns (out: seq<Json>)
    ensures out == AllRoutes(ts)
  {
    hide RenderMain, RenderRedirect;
    out := [];
    var n := 0;
    while n < |ts|
      invariant 0 <= n <= |ts|
      invariant out == AllRoutes(ts[..n])
    {
      assert ts[..n + 1][..n] == ts[..n];
      var t := ts[n];
      if t.enabled {
        var before := out;
        out := out + [RenderMain(t)];
        var k := 0;
        while k < |t.redirects|
          invariant 0 <= k <= |t.redirects|
          invariant out == before + ([RenderMain(t)] + RedirectRoutes(t.id, t.redirects[..k]))
        {
          assert RedirectRoutes(t.id, t.redirects[..k + 1])
              == RedirectRoutes(t.id, t.redirects[..k]) + [RenderRedirect(t.id, t.redirects[k])];
          out := out + [RenderRedirect(t.id, t.redirects[k])];
          k := k + 1;
        }
        assert t.redirects[..k] == t.redirects;
      }
      n := n + 1;
    }
    assert ts[..n] == ts;
  }

  /** A route of the output is some enabled tenant's main route or one of its redirects. */
  ghost predicate ComesFrom(ts: seq<Tenant>, v: Json, i: int) {
    && 0 <= i < |ts| && ts[i].enabled
    && (v == RenderMain(ts[i]) || exists r :: r in ts[i].redirects && v == RenderRedirect(ts[i].id, r))
  }

  /** Nothing is lost and nothing is invented: the output holds exactly the routes of enabled tenants. */
  lemma {:induction false} RoutesAre(ts: seq<Tenant>, v: Json)
    ensures v in AllRoutes(ts) <==> exists i :: ComesFrom(ts, v, i)
  {
    hide RenderMain, RenderRedirect;
    if ts != [] {
      var n := |ts| - 1;
      RoutesAre(ts[..n], v);
      InTenant(ts[n], v);
      if v in AllRoutes(ts) {
        if v in AllRoutes(ts[..n]) {
          var i :| ComesFrom(ts[..n], v, i);
          assert ComesFrom(ts, v, i);
        } else {
          assert ComesFrom(ts, v, n);
        }
      }
      if i :| ComesFrom(ts, v, i) {
        if i < n {
          assert ComesFrom(ts[..n], v, i);
        }
      }
    }
  }

  lemma {:induction false} InTenant(t: Tenant, v: Json)
    ensures v in [RenderMain(t)] + RedirectRoutes(t.id, t.redirects) <==>
            v == RenderMain(t) || exists r :: r in t.redirects && v == RenderRedirect(t.id, r)
  {
    hide RenderMain, RenderRedirect;
    var rs := RedirectRoutes(t.id, t.redirects);
    if r :| r in t.redirects && v == RenderRedirect(t.id, r) {
      var k :| 0 <= k < |t.redirects| && t.redirects[k] == r;
      assert rs[k] == v;
    }
    if v in rs {
      var k :| 0 <= k < |rs| && rs[k] == v;
      assert t.redirects[k] in t.redirects;
    }
  }

  // ---- the shape validator -------------------------------------------------------------------

  datatype ShapeError =
    | NotAnObject
    | UnknownKey(key: string)
    | NoMatchOrHandle
    | HandleNotArray
    | MissingHandler(index: nat)

  const ALLOWED := {"@id", "match", "handle", "terminal", "group"}

  predicate HasHandler(h: Json) {
    h.Obj? && "handler" in h.fields && h.fields["handler"].Str?
  }

  predicate ShapeOk(v: Json) {
    && v.Obj?
    && v.fields.Keys <= {"@id", "match", "handle", "terminal", "group"}
    && ("match" in v.fields || "handle" in v.fields)
    && ("handle" in v.fields ==>
          v.fields["handle"].Arr? &&
          forall i :: 0 <= i < |v.fields["handle"].items| ==> HasHandler(v.fields["handle"].items[i]))
  }

  predicate KnownKeys(v: Json) {
    v.Obj? && forall key :: key in v.fields ==> key in {"@id", "match", "handle", "terminal", "group"}
  }

  /** The error names a violation that is really there, and nothing that is checked before it is
      violated. */
  ghost predicate Violates(v: Json, e: ShapeError) {
    match e
    case NotAnObject => !v.Obj?
    case UnknownKey(key) =>
      v.Obj? && key in v.fields && key !in {"@id", "match", "handle", "terminal", "group"}
    case NoMatchOrHandle => KnownKeys(v) && "match" !in v.fields && "handle" !in v.fields
    case HandleNotArray => KnownKeys(v) && "handle" in v.fields && !v.fields["handle"].Arr?
    case MissingHandler(index) =>
      && KnownKeys(v) && "handle" in v.fields && v.fields["handle"].Arr?
      && index < |v.fields["handle"].items| && !HasHandler(v.fields["handle"].items[index])
      && forall i :: 0 <= i < index ==> HasHandler(v.fields["handle"].items[i])
  }

  /** The index of the first item that is not a handler. */
  lemma {:induction false} FirstMissing(items: seq<Json>) returns (index: nat)
    requires exists i :: 0 <= i < |items| && !HasHandler(items[i])
    ensures index < |items| && !HasHandler(items[index]) && forall i :: 0 <= i < index ==> HasHandler(items[i])
  {
    if !HasHandler(items[0]) {
      index := 0;
    } else {
      assert forall i :: 1 <= i < |items| ==> items[i] == items[1..][i - 1];
      var rest := FirstMissing(items[1..]);
      index := rest + 1;
    }
  }

  /** The shape is right exactly when no error describes it. */
  lemma {:induction false} ShapeIffNoViolation(v: Json)
    ensures ShapeOk(v) <==> forall e :: !Violates(v, e)
  {
    hide HasHandler;
    if (forall e :: !Violates(v, e)) {
      assert !Violates(v, NotAnObject) && !Violates(v, NoMatchOrHandle) && !Violates(v, HandleNotArray);
      forall key | key in v.fields
        ensures key in {"@id", "match", "handle", "terminal", "group"}
      {
        assert !Violates(v, UnknownKey(key));
      }
      if "handle" in v.fields && !ShapeOk(v) {
        var index := FirstMissing(v.fields["handle"].items);
        assert Violates(v, MissingHandler(index));
      }
    }
  }

  /** `validate_caddy_route_shape`: keys in any order, then the handlers front to back. */
  method ValidateShape(v: Json) returns (r: Option<ShapeError>)
    ensures r.None? <==> ShapeOk(v)
    ensures r.Some? ==> Violates(v, r.value)
  {
    if !v.Obj? {
      return Some(NotAnObject);
    }
    var keys := v.fields.Keys;
    while keys != {}
      invariant keys <= v.fields.Keys
      invariant v.fields.Keys - keys <= ALLOWED
      decreases |keys|
    {
      var key :| key in keys;
      if key !in ALLOWED {
        return Some(UnknownKey(key));
      }
      keys := keys - {key};
    }
    assert v.fields.Keys <= ALLOWED;
    assert KnownKeys(v);
    if "match" !in v.fields && "handle" !in v.fields {
      return Some(NoMatchOrHandle);
    }
    if "handle" in v.fields {
      var handle := v.fields["handle"];
      if !handle.Arr? {
        return Some(HandleNotArray);
      }
      var i := 0;
      while i < |handle.items|
        invariant 0 <= i <= |handle.items|
        invariant forall k :: 0 <= k < i ==> HasHandler(handle.items[k])
      {
        if !HasHandler(handle.items[i]) {
          return Some(MissingHandler(i));
        }
        i := i + 1;
      }
    }
    r := None;
  }

  /** The validator never rejects the renderer's own output, whatever the tenants. */
  lemma {:induction false} RenderedShapes(ts: seq<Tenant>, v: Json)
    requires v in AllRoutes(ts)
    ensures ShapeOk(v)
  {
    RoutesAre(ts, v);
    var i :| ComesFrom(ts, v, i);
    if v != RenderMain(ts[i]) {
      var r :| r in ts[i].redirects && v == RenderRedirect(ts[i].id, r);
      assert ShapeOk(v);
    }
  }

  lemma {:induction false} SubrouteShapes(r: Route)
    ensures ShapeOk(RenderRoute(r))
  {
    match r.action
    case Proxy(upstream, host, sse) =>
      assert HasHandler(ProxyHandler(upstream, host, sse));
    case FileServer(root, cache, files, strip) =>
      assert forall i :: 0 <= i < |FileHandlers(root, cache, files, strip)| ==>
        HasHandler(FileHandlers(root, cache, files, strip)[i]);
  }

  /** An upstream is always dialled as a host with a port, whatever scheme, port or path it was given with. */
  lemma {:induction false} DialHasPort(url: string)
    ensures ':' in Dial(url) && '/' !in Dial(url)
  {
    assert '/' !in HostOf(url);
    if ':' !in HostOf(url) {
      var port := if StartsWith(url, "https://") then "443" else "80";
      assert Dial(url)[|HostOf(url)|] == ':';
      assert '/' !in port;
    }
  }

  // ---- ids and hosts ----------------------------------------------------------------------

  function RouteId(v: Json): Option<string> {
    if v.Obj? && "@id" in v.fields && v.fields["@id"].Str? then Some(v.fields["@id"].text) else None
  }

  /** A main route's id identifies its tenant, and no redirect of any tenant can share it. */
  lemma {:induction false} MainIdsApart(id: string, other: string, host: string)
    requires IsTenantId(id)
    ensures MainId(id) == MainId(other) ==> id == other
    ensures MainId(id) != RedirectId(other, host)
  {
    assert MainId(id)[7..] == id && MainId(other)[7..] == other;
    var tail := other + ":redirect:" + host;
    assert RedirectId(other, host)[7..] == tail;
    assert tail[|other|] == ':';
    assert ':' in tail && ':' !in id;
  }

  /** In a validated file neither an id nor a host belongs to two tenants. */
  lemma {:induction false} OnePosition(ts: seq<Tenant>, i: int, k: int)
    requires Apart(ts) && 0 <= i < |ts| && 0 <= k < |ts|
    ensures ts[i].id == ts[k].id ==> i == k
    ensures forall host :: host in ts[i].domains && host in ts[k].domains ==> i == k
  {
    var low, high := if i < k then i else k, if i < k then k else i;
    assert low < high ==> ts[low].id != ts[high].id;
  }

  /** Every route that carries the id of an enabled tenant's main route is that very route. */
  lemma {:induction false} IdsIdentifyMains(f: TenantsFile, i: int, v: Json)
    requires WellFormed(f) && 0 <= i < |f.tenants|
    requires v in AllRoutes(f.tenants) && RouteId(v) == Some(MainId(f.tenants[i].id))
    ensures v == RenderMain(f.tenants[i]) && f.tenants[i].enabled
  {
    var ts := f.tenants;
    RoutesAre(ts, v);
    var k :| ComesFrom(ts, v, k);
    assert TenantOk(ts[i]);
    if v == RenderMain(ts[k]) {
      MainIdsApart(ts[i].id, ts[k].id, "");
      OnePosition(ts, i, k);
    } else {
      var r :| r in ts[k].redirects && v == RenderRedirect(ts[k].id, r);
      MainIdsApart(ts[i].id, ts[k].id, r.fromHost);
    }
  }

  /** The route hands requests for `host` to a tenant's sub-routes. */
  ghost predicate Reaches(v: Json, host: string) {
    && v.Obj? && "match" in v.fields && "handle" in v.fields
    && (exists hosts :: v.fields["match"] == Arr([Obj(map["host" := Strings(hosts)])]) && host in hosts)
    && v.fields["handle"].Arr? && |v.fields["handle"].items| == 1
    && var h := v.fields["handle"].items[0]; h.Obj? && "handler" in h.fields && h.fields["handler"] == Str("subroute")
  }

  lemma StringsInjective(a: seq<string>, b: seq<string>)
    requires Strings(a) == Strings(b)
    ensures a == b
  {
    forall i | 0 <= i < |a|
      ensures a[i] == b[i]
    {
      assert Strings(a).items[i] == Str(a[i]);
      assert Strings(b).items[i] == Str(b[i]);
    }
  }

  lemma HostMatchInjective(a: seq<string>, b: seq<string>)
    requires HostMatch(a) == HostMatch(b)
    ensures a == b
  {
    assert HostMatch(a).items[0].fields["host"] == Strings(a);
    assert HostMatch(b).items[0].fields["host"] == Strings(b);
    StringsInjective(a, b);
  }

  lemma {:induction false} RedirectsDoNotReach(id: string, r: Redirect, host: string)
    ensures !Reaches(RenderRedirect(id, r), host)
  {
    assert RenderRedirect(id, r).fields["handle"].items[0].fields["handler"] == Str("static_response");
  }

  lemma {:induction false} ReachesMain(ts: seq<Tenant>, v: Json, host: string) returns (i: int)
    requires v in AllRoutes(ts) && Reaches(v, host)
    ensures 0 <= i < |ts| && ts[i].enabled && v == RenderMain(ts[i]) && host in ts[i].domains
  {
    RoutesAre(ts, v);
    i :| ComesFrom(ts, v, i);
    forall r | r in ts[i].redirects
      ensures v != RenderRedirect(ts[i].id, r)
    {
      RedirectsDoNotReach(ts[i].id, r, host);
    }
    var hosts :| v.fields["match"] == Arr([Obj(map["host" := Strings(hosts)])]) && host in hosts;
    HostMatchInjective(hosts, ts[i].domains);
  }

  /** In a validated file a host reaches one tenant: two routes that take it there are the same route. */
  lemma {:induction false} OneTenantPerHost(f: TenantsFile, host: string, v: Json, w: Json)
    requires WellFormed(f)
    requires v in AllRoutes(f.tenants) && Reaches(v, host)
    requires w in AllRoutes(f.tenants) && Reaches(w, host)
    ensures v == w
  {
    hide Reaches, RenderMain, AllRoutes, TenantOk;
    var i := ReachesMain(f.tenants, v, host);
    var k := ReachesMain(f.tenants, w, host);
    OnePosition(f.tenants, i, k);
  }
}
