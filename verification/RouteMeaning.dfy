/**
 What a rendered route does with a request, read off the route object.
 */
module RouteMeaning {
  import opened Common
  import opened Text
  import opened Tenants
  import opened Routes

  predicate Has(v: Json, key: string, x: Json) {
    v.Obj? && key in v.fields && v.fields[key] == x
  }

  predicate Lacks(v: Json, key: string) {
    v.Obj? && key !in v.fields
  }

  function One(s: string): Json {
    Arr([Str(s)])
  }

  lemma StringsOfOne(s: string)
    ensures Strings([s]) == One(s)
  {
    assert Strings([s]).items == [Str(s)];
  }

  // ---- upstream addresses -------------------------------------------------------------------

  /** An upstream written as scheme, host with or without port, and path. */
  predicate Parts(scheme: string, host: string, path: string) {
    && scheme in {"https://", "http://", ""}
    && '/' !in host && (path == "" || path[0] == '/')
    && (scheme == "" ==> !StartsWith(host + path, "https://") && !StartsWith(host + path, "http://"))
  }

  /** Every upstream has such parts. */
  lemma {:induction false} HasParts(url: string) returns (scheme: string, host: string, path: string)
    ensures Parts(scheme, host, path) && url == scheme + host + path
  {
    scheme := if StartsWith(url, "https://") then "https://" else if StartsWith(url, "http://") then "http://" else "";
    var rest := url[|scheme|..];
    assert url == scheme + rest;
    var i := Find(rest, '/');
    host, path := rest[..i], rest[i..];
    assert rest == host + path;
    Assoc(scheme, host, path);
  }

  lemma {:induction false} SchemeOf(scheme: string, host: string, path: string)
    requires Parts(scheme, host, path)
    ensures StripScheme(scheme + host + path) == host + path
    ensures StartsWith(scheme + host + path, "https://") <==> scheme == "https://"
  {
    var url := scheme + host + path;
    Assoc(scheme, host, path);
    assert url[..|scheme|] == scheme && url[|scheme|..] == host + path;
    if scheme == "http://" {
      assert url[4] == ':';
    } else if scheme == "" {
      assert url == host + path;
    }
  }

  /** The address that is dialled: the host with its own port, or with the port of the scheme. */
  lemma {:induction false} DialIs(scheme: string, host: string, path: string)
    requires Parts(scheme, host, path)
    ensures HostOf(scheme + host + path) == host
    ensures Dial(scheme + host + path) ==
            if ':' in host then host else host + (if scheme == "https://" then ":443" else ":80")
  {
    hide StripScheme, StartsWith;
    SchemeOf(scheme, host, path);
    if path == "" {
      SplitSingle(host, '/');
      assert host + path == host;
    } else {
      assert path == ['/'] + path[1..];
      Assoc(host, ['/'], path[1..]);
      SplitPrefix(host, path[1..], '/');
    }
    assert host + ":" + "443" == host + ":443" && host + ":" + "80" == host + ":80";
  }

  // ---- handlers -------------------------------------------------------------------------------

  /** The handler proxies to the upstream: TLS exactly for `https`, the given host header or else the
      upstream's own, and unbuffered exactly when asked for. */
  predicate Proxies(h: Json, upstream: string, hostHeader: Option<string>, sse: Option<bool>) {
    && Has(h, "handler", Str("reverse_proxy"))
    && Has(h, "upstreams", Arr([Obj(map["dial" := Str(Dial(upstream))])]))
    && (if StartsWith(upstream, "https://")
        then Has(h, "transport", Obj(map["protocol" := Str("http"), "tls" := Obj(map[])]))
        else Lacks(h, "transport"))
    && Has(h, "headers", Obj(map["request" := Obj(map["set" := Obj(map["Host" := One(
         match hostHeader case Some(host) => host case None => HostOf(upstream))])])]))
    && (if sse == Some(true) then Has(h, "flush_interval", Num(-1)) else Lacks(h, "flush_interval"))
    && h.fields.Keys <= {"handler", "upstreams", "transport", "headers", "flush_interval"}
  }

  lemma {:induction false} ProxyMeans(upstream: string, hostHeader: Option<string>, sse: Option<bool>)
    ensures Proxies(ProxyHandler(upstream, hostHeader, sse), upstream, hostHeader, sse)
  {
    hide StartsWith, Dial, HostOf;
    StringsOfOne(if hostHeader.Some? then hostHeader.value else HostOf(upstream));
  }

  predicate Strips(h: Json, prefix: string) {
    h == Obj(map["handler" := Str("rewrite"), "strip_path_prefix" := Str(prefix)])
  }

  /** The handler tries the files under the root in turn and rewrites to the first that exists. */
  ghost predicate FallsBack(h: Json, root: string, files: seq<string>) {
    exists items ::
      && |items| == |files| && (forall i :: 0 <= i < |files| ==> items[i] == Str(files[i]))
      && h == Obj(map["handler" := Str("subroute"), "routes" := Arr([Obj(map[
                "match" := Arr([Obj(map["file" := Obj(map["try_files" := Arr(items), "root" := Str(root)])])]),
                "handle" := Arr([Obj(map["handler" := Str("rewrite"),
                                         "uri" := Str("{http.matchers.file.relative}")])])])])])
  }

  predicate Caches(h: Json, control: string) {
    h == Obj(map["handler" := Str("headers"),
                 "response" := Obj(map["set" := Obj(map["Cache-Control" := One(control)])])])
  }

  /** The handlers serve files from the root: strip, fall back, serve, cache, in this order and each
      exactly when asked for. */
  ghost predicate ServesFiles(hs: seq<Json>, root: string, cacheControl: Option<string>, tryFiles: Option<seq<string>>,
                        strip: Option<string>)
  {
    var a := if strip.Some? then 1 else 0;
    var b := a + if tryFiles.Some? then 1 else 0;
    && |hs| == b + 1 + (if cacheControl.Some? then 1 else 0)
    && (strip.Some? ==> Strips(hs[0], strip.value))
    && (tryFiles.Some? ==> FallsBack(hs[a], root, tryFiles.value))
    && hs[b] == Obj(map["handler" := Str("file_server"), "root" := Str(root)])
    && (cacheControl.Some? ==> Caches(hs[b + 1], cacheControl.value))
  }

  lemma {:induction false} FilesMean(root: string, cache: Option<string>, files: Option<seq<string>>,
                                     strip: Option<string>)
    ensures ServesFiles(FileHandlers(root, cache, files, strip), root, cache, files, strip)
  {
    if cache.Some? {
      StringsOfOne(cache.value);
    }
    if files.Some? {
      FallbackMeans(root, files.value);
    }
    hide Fallback, FallsBack;
  }

  lemma FallbackMeans(root: string, files: seq<string>)
    ensures FallsBack(Fallback(root, files), root, files)
  {
    var items := Strings(files).items;
    assert Strings(files) == Arr(items);
  }

  // ---- routes -----------------------------------------------------------------------------------

  /** The sub-route carries out the tenant's route: it matches its path and nothing else, and its
      handlers do what the route says. */
  ghost predicate Implements(v: Json, r: Route) {
    && Has(v, "match", Arr([Obj(map["path" := One(r.path)])]))
    && v.fields.Keys == {"match", "handle"}
    && v.fields["handle"].Arr?
    && var hs := v.fields["handle"].items;
       match r.action
       case Proxy(upstream, host, sse) => |hs| == 1 && Proxies(hs[0], upstream, host, sse)
       case FileServer(root, cache, files, strip) => ServesFiles(hs, root, cache, files, strip)
  }

  lemma {:induction false} RouteMeans(r: Route)
    ensures Implements(RenderRoute(r), r)
  {
    hide Proxies, ServesFiles, ProxyHandler, FileHandlers;
    StringsOfOne(r.path);
    match r.action
    case Proxy(upstream, host, sse) => ProxyMeans(upstream, host, sse);
    case FileServer(root, cache, files, strip) => FilesMean(root, cache, files, strip);
  }

  /** The route takes requests for the host to sub-routes that carry out the given routes, one by one
      and in order, and ends there. */
  ghost predicate Serves(v: Json, host: string, routes: seq<Route>) {
    && Reaches(v, host)
    && Has(v, "terminal", Bool(true))
    && var h := v.fields["handle"].items[0];
    && h.fields.Keys == {"handler", "routes"} && h.fields["routes"].Arr?
    && |h.fields["routes"].items| == |routes|
    && forall k :: 0 <= k < |routes| ==> Implements(h.fields["routes"].items[k], routes[k])
  }

  /** Every host of every enabled tenant is served with all of the tenant's routes, by the tenant's main
      route, which carries its id. */
  lemma {:induction false} HostsAreServed(ts: seq<Tenant>, i: int, host: string)
    requires 0 <= i < |ts| && ts[i].enabled && host in ts[i].domains
    ensures RenderMain(ts[i]) in AllRoutes(ts) && Serves(RenderMain(ts[i]), host, ts[i].routes)
    ensures RouteId(RenderMain(ts[i])) == Some("tenant:" + ts[i].id)
  {
    hide RenderRoute, Implements;
    var t := ts[i];
    RoutesAre(ts, RenderMain(t));
    assert ComesFrom(ts, RenderMain(t), i);
    assert RenderMain(t).fields["match"] == Arr([Obj(map["host" := Strings(t.domains)])]);
    forall k | 0 <= k < |t.routes|
      ensures Implements(RenderMain(t).fields["handle"].items[0].fields["routes"].items[k], t.routes[k])
    {
      RouteMeans(t.routes[k]);
    }
  }

  /** The route answers requests for the redirect's host with its target, permanently or not. */
  predicate Redirects(v: Json, r: Redirect) {
    && Has(v, "match", Arr([Obj(map["host" := One(r.fromHost)])]))
    && Has(v, "handle", Arr([Obj(map[
         "handler" := Str("static_response"),
         "headers" := Obj(map["Location" := One(r.to)]),
         "status_code" := Num(if r.permanent then 308 else 307)])]))
    && Has(v, "terminal", Bool(true))
  }

  /** Every redirect of every enabled tenant is rendered as one. */
  lemma {:induction false} RedirectsAnswer(ts: seq<Tenant>, i: int, r: Redirect)
    requires 0 <= i < |ts| && ts[i].enabled && r in ts[i].redirects
    ensures exists v :: v in AllRoutes(ts) && Redirects(v, r)
                        && RouteId(v) == Some("tenant:" + ts[i].id + ":redirect:" + r.fromHost)
  {
    var v := RenderRedirect(ts[i].id, r);
    RoutesAre(ts, v);
    assert ComesFrom(ts, v, i);
    StringsOfOne(r.fromHost);
    StringsOfOne(r.to);
    assert Redirects(v, r);
  }
}
