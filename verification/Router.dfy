/** Request routing (pavis: router.rs, router/matcher.rs): routes are grouped into zones and hosts into
    tables when the router is built, and requests are looked up in those. */
module Router {
  import opened Common
  import Etag

  datatype PathMatch = Exact(path: string) | Prefix(path: string) | Regex(pattern: string)

  datatype MethodPredicate = AnyMethod | Specific(name: string) | Methods(names: seq<string>)

  datatype HeaderMatch =
    | Present | Absent | ExactValue(value: string) | PrefixValue(prefix: string) | RegexValue(pattern: string)

  datatype HeaderPredicate = HeaderPredicate(name: string, matcher: HeaderMatch)

  datatype HeaderPredicates = NoHeaders | AllOf(predicates: seq<HeaderPredicate>)

  datatype Route = Route(path: PathMatch, methods: MethodPredicate, headers: HeaderPredicates)

  datatype VirtualHost = VirtualHost(host: string, routes: seq<Route>)

  /** A request; `header` looks a name up as HTTP does, ignoring case. */
  datatype Request = Request(path: string, verb: string, header: string -> Option<string>)

  /** The regular-expression engine: which path patterns compile, what they match, which header patterns
      are in the cache, what those match, and the size limit on their input. */
  datatype Env = Env(
    compiles: string -> bool,
    matches: (string, string) -> bool,
    cached: string -> bool,
    headerMatches: (string, string) -> bool,
    inputMaxBytes: nat)

  /** `eq_ignore_ascii_case`. */
  predicate SameVerb(a: string, b: string) { Etag.Lower(a) == Etag.Lower(b) }

  predicate MatchesMethod(p: MethodPredicate, verb: string) {
    match p
    case AnyMethod => true
    case Specific(m) => SameVerb(verb, m)
    case Methods(ms) => exists i :: 0 <= i < |ms| && SameVerb(verb, ms[i])
  }

  predicate MatchesHeader(env: Env, p: HeaderPredicate, req: Request) {
    match (p.matcher, req.header(p.name))
    case (Present, Some(_)) => true
    case (Absent, None) => true
    case (ExactValue(v), Some(actual)) => actual == v
    case (PrefixValue(v), Some(actual)) => v <= actual
    case (RegexValue(pattern), Some(actual)) =>
      env.cached(pattern) && |actual| <= env.inputMaxBytes && env.headerMatches(pattern, actual)
    case (_, _) => false
  }

  predicate MatchesHeaders(env: Env, p: HeaderPredicates, req: Request) {
    p.AllOf? ==> forall i :: 0 <= i < |p.predicates| ==> MatchesHeader(env, p.predicates[i], req)
  }

  predicate MatchesPath(env: Env, p: PathMatch, path: string) {
    match p
    case Exact(s) => path == s
    case Prefix(s) => s <= path
    case Regex(pattern) => env.matches(pattern, path)
  }

  /** What it means for a route to match, whatever zone it lives in. */
  predicate Matches(env: Env, r: Route, req: Request) {
    MatchesPath(env, r.path, req.path) && MatchesMethod(r.methods, req.verb) && MatchesHeaders(env, r.headers, req)
  }

  /* ---- what matching says of a request ---- */

  /** The same letters, up to ASCII case. */
  ghost predicate SameLetters(a: string, b: string) {
    && |a| == |b|
    && forall i | 0 <= i < |a| ::
         || a[i] == b[i]
         || ('A' <= a[i] <= 'Z' && b[i] as int == a[i] as int + 32)
         || ('A' <= b[i] <= 'Z' && a[i] as int == b[i] as int + 32)
  }

  lemma SameVerbMeaning(a: string, b: string)
    ensures SameVerb(a, b) <==> SameLetters(a, b)
  {
    if SameVerb(a, b) {
      forall i | 0 <= i < |a| ensures Etag.LowerChar(a[i]) == Etag.LowerChar(b[i]) {
        assert Etag.Lower(a)[i] == Etag.Lower(b)[i];
      }
    }
    if SameLetters(a, b) { assert Etag.Lower(a) == Etag.Lower(b); }
  }

  /** What a route asks of a request: of its path, its verb, and each header it names. */
  ghost predicate Admits(env: Env, r: Route, req: Request) {
    && (r.path.Exact? ==> req.path == r.path.path)
    && (r.path.Prefix? ==> exists rest :: req.path == r.path.path + rest)
    && (r.path.Regex? ==> env.matches(r.path.pattern, req.path))
    && (r.methods.Specific? ==> SameLetters(req.verb, r.methods.name))
    && (r.methods.Methods? ==> exists m :: m in r.methods.names && SameLetters(req.verb, m))
    && (r.headers.AllOf? ==> forall p :: p in r.headers.predicates ==> HeaderAdmits(env, p.matcher, req.header(p.name)))
  }

  ghost predicate HeaderAdmits(env: Env, m: HeaderMatch, value: Option<string>) {
    && (m.Present? ==> value != None)
    && (m.Absent? ==> value == None)
    && (m.ExactValue? ==> value == Some(m.value))
    && (m.PrefixValue? ==> exists rest :: value == Some(m.prefix + rest))
    && (m.RegexValue? ==>
          exists v :: value == Some(v) && |v| <= env.inputMaxBytes
                      && env.cached(m.pattern) && env.headerMatches(m.pattern, v))
  }

  lemma PrefixMeaning(prefix: string, s: string)
    ensures prefix <= s <==> exists rest :: s == prefix + rest
  {
    if prefix <= s { assert s == prefix + s[|prefix|..]; }
  }

  lemma HeaderMeaning(env: Env, p: HeaderPredicate, req: Request)
    ensures MatchesHeader(env, p, req) <==> HeaderAdmits(env, p.matcher, req.header(p.name))
  {
    if p.matcher.PrefixValue? && req.header(p.name).Some? {
      PrefixMeaning(p.matcher.prefix, req.header(p.name).value);
    }
  }

  lemma MethodMeaning(p: MethodPredicate, verb: string)
    ensures MatchesMethod(p, verb) <==>
            && (p.Specific? ==> SameLetters(verb, p.name))
            && (p.Methods? ==> exists m :: m in p.names && SameLetters(verb, m))
  {
    match p
    case AnyMethod =>
    case Specific(m) => SameVerbMeaning(verb, m);
    case Methods(ms) => forall m ensures SameVerb(verb, m) <==> SameLetters(verb, m) { SameVerbMeaning(verb, m); }
  }

  lemma HeadersMeaning(env: Env, p: HeaderPredicates, req: Request)
    ensures MatchesHeaders(env, p, req) <==>
            (p.AllOf? ==> forall q :: q in p.predicates ==> HeaderAdmits(env, q.matcher, req.header(q.name)))
  {
    if p.AllOf? {
      forall q ensures MatchesHeader(env, q, req) <==> HeaderAdmits(env, q.matcher, req.header(q.name)) {
        HeaderMeaning(env, q, req);
      }
    }
  }

  /** A route matches exactly the requests it admits. */
  lemma MatchesMeaning(env: Env, r: Route, req: Request)
    ensures Matches(env, r, req) <==> Admits(env, r, req)
  {
    if r.path.Prefix? { PrefixMeaning(r.path.path, req.path); }
    MethodMeaning(r.methods, req.verb);
    HeadersMeaning(env, r.headers, req);
  }

  /** The reference: the first of the first `n` routes that matches. */
  function FirstMatch(env: Env, routes: seq<Route>, n: nat, req: Request): Option<nat>
    requires n <= |routes|
  {
    if n == 0 then None
    else
      var earlier := FirstMatch(env, routes, n - 1, req);
      if earlier.Some? then earlier else if Matches(env, routes[n - 1], req) then Some(n - 1) else None
  }

  lemma {:induction false} FirstMatchMeaning(env: Env, routes: seq<Route>, n: nat, req: Request)
    requires n <= |routes|
    ensures var k := FirstMatch(env, routes, n, req);
            && (k.None? ==> forall i :: 0 <= i < n ==> !Matches(env, routes[i], req))
            && (k.Some? ==> k.value < n && Matches(env, routes[k.value], req)
                            && forall i :: 0 <= i < k.value ==> !Matches(env, routes[i], req))
  {
    if n > 0 { FirstMatchMeaning(env, routes, n - 1, req); }
  }

  /* ---- zones ---- */

  /** A compiled route keeps its index; `regex` is the compiled path pattern. */
  datatype CompiledRoute = CompiledRoute(index: nat, regex: Option<string>)

  datatype Zone = Linear(routes: seq<CompiledRoute>) | ExactMap(byPath: map<string, nat>)

  predicate HasPredicates(r: Route) { r.methods != AnyMethod || r.headers != NoHeaders }

  ghost predicate WellCompiled(routes: seq<Route>, c: CompiledRoute) {
    c.index < |routes| && (routes[c.index].path.Regex? ==> c.regex == Some(routes[c.index].path.pattern))
  }

  ghost predicate WellFormed(routes: seq<Route>, z: Zone) {
    match z
    case Linear(cs) => forall i :: 0 <= i < |cs| ==> WellCompiled(routes, cs[i])
    case ExactMap(m) => forall p :: p in m ==> m[p] < |routes| && routes[m[p]] == Route(Exact(p), AnyMethod, NoHeaders)
  }

  ghost predicate AllWellFormed(routes: seq<Route>, zones: seq<Zone>) {
    forall i :: 0 <= i < |zones| ==> WellFormed(routes, zones[i])
  }

  predicate CompiledMatches(env: Env, routes: seq<Route>, c: CompiledRoute, req: Request)
    requires c.index < |routes|
  {
    var r := routes[c.index];
    && (match r.path
        case Exact(s) => req.path == s
        case Prefix(s) => s <= req.path
        case Regex(_) => c.regex.Some? && env.matches(c.regex.value, req.path))
    && MatchesMethod(r.methods, req.verb)
    && MatchesHeaders(env, r.headers, req)
  }

  /** The first hit in a list of compiled routes. */
  ghost function LinearHit(env: Env, routes: seq<Route>, cs: seq<CompiledRoute>, req: Request): Option<nat>
    requires forall i :: 0 <= i < |cs| ==> WellCompiled(routes, cs[i])
  {
    if cs == [] then None
    else
      var n := |cs| - 1;
      assert WellCompiled(routes, cs[n]);
      var earlier := LinearHit(env, routes, cs[..n], req);
      if earlier.Some? then earlier else if CompiledMatches(env, routes, cs[n], req) then Some(cs[n].index) else None
  }

  ghost function MapHit(env: Env, routes: seq<Route>, m: map<string, nat>, req: Request): Option<nat>
    requires forall p :: p in m ==> m[p] < |routes|
  {
    if req.path in m && MatchesMethod(routes[m[req.path]].methods, req.verb)
       && MatchesHeaders(env, routes[m[req.path]].headers, req)
    then Some(m[req.path]) else None
  }

  ghost function ZoneHit(env: Env, routes: seq<Route>, z: Zone, req: Request): Option<nat>
    requires WellFormed(routes, z)
  {
    match z
    case Linear(cs) => LinearHit(env, routes, cs, req)
    case ExactMap(m) => MapHit(env, routes, m, req)
  }

  /** Zones in order; the first hit wins. */
  ghost function Walk(env: Env, routes: seq<Route>, zones: seq<Zone>, req: Request): Option<nat>
    requires AllWellFormed(routes, zones)
  {
    if zones == [] then None
    else
      var n := |zones| - 1;
      var earlier := Walk(env, routes, zones[..n], req);
      if earlier.Some? then earlier else ZoneHit(env, routes, zones[n], req)
  }

  /* ---- building the zones ---- */

  /** The zones that flushing would leave. */
  function Flushed(zones: seq<Zone>, linear: Option<seq<CompiledRoute>>, byPath: Option<map<string, nat>>): seq<Zone> {
    if linear.Some? then zones + [Linear(linear.value)]
    else if byPath.Some? then zones + [ExactMap(byPath.value)]
    else zones
  }

  /** The zones stand for the first `n` routes: looking any request up in them is scanning those. */
  ghost predicate StandFor(env: Env, routes: seq<Route>, n: nat, zones: seq<Zone>)
    requires n <= |routes|
  {
    AllWellFormed(routes, zones) && forall req :: Walk(env, routes, zones, req) == FirstMatch(env, routes, n, req)
  }

  /** One more zone, or one more entry in the last zone, one request at a time. */
  lemma WalkSnoc(env: Env, routes: seq<Route>, zones: seq<Zone>, z: Zone, req: Request)
    requires AllWellFormed(routes, zones) && WellFormed(routes, z)
    ensures AllWellFormed(routes, zones + [z])
    ensures Walk(env, routes, zones + [z], req) ==
            if Walk(env, routes, zones, req).Some? then Walk(env, routes, zones, req) else ZoneHit(env, routes, z, req)
  {
    assert (zones + [z])[..|zones + [z]| - 1] == zones;
  }

  lemma LinearSnoc(env: Env, routes: seq<Route>, cs: seq<CompiledRoute>, c: CompiledRoute, req: Request)
    requires WellFormed(routes, Linear(cs)) && WellCompiled(routes, c)
    ensures WellFormed(routes, Linear(cs + [c]))
    ensures LinearHit(env, routes, cs + [c], req) ==
            if LinearHit(env, routes, cs, req).Some? then LinearHit(env, routes, cs, req)
            else if Matches(env, routes[c.index], req) then Some(c.index) else None
  {
    assert (cs + [c])[..|cs + [c]| - 1] == cs;
  }

  lemma LinearGrows(env: Env, routes: seq<Route>, n: nat, zones: seq<Zone>, cs: seq<CompiledRoute>, c: CompiledRoute)
    requires n < |routes| && c.index == n && WellCompiled(routes, c)
    requires StandFor(env, routes, n, zones + [Linear(cs)])
    ensures StandFor(env, routes, n + 1, zones + [Linear(cs + [c])])
  {
    SplitLast(routes, zones, Linear(cs));
    forall req ensures AllWellFormed(routes, zones + [Linear(cs + [c])])
                    && Walk(env, routes, zones + [Linear(cs + [c])], req) == FirstMatch(env, routes, n + 1, req) {
      LinearSnoc(env, routes, cs, c, req);
      WalkSnoc(env, routes, zones, Linear(cs), req);
      WalkSnoc(env, routes, zones, Linear(cs + [c]), req);
    }
    AddWellFormed(routes, zones, Linear(cs + [c]));
  }

  lemma LinearStarts(env: Env, routes: seq<Route>, n: nat, zones: seq<Zone>, c: CompiledRoute)
    requires n < |routes| && c.index == n && WellCompiled(routes, c)
    requires StandFor(env, routes, n, zones)
    ensures StandFor(env, routes, n + 1, zones + [Linear([c])])
  {
    assert StandFor(env, routes, n, zones + [Linear([])]) by {
      AddWellFormed(routes, zones, Linear([]));
      forall req ensures Walk(env, routes, zones + [Linear([])], req) == FirstMatch(env, routes, n, req) {
        WalkSnoc(env, routes, zones, Linear([]), req);
      }
    }
    LinearGrows(env, routes, n, zones, [], c);
    assert [] + [c] == [c];
  }

  lemma SplitLast(routes: seq<Route>, zones: seq<Zone>, z: Zone)
    requires AllWellFormed(routes, zones + [z])
    ensures AllWellFormed(routes, zones) && WellFormed(routes, z)
  {
    assert (zones + [z])[|zones|] == z;
    forall i | 0 <= i < |zones| ensures WellFormed(routes, zones[i]) { assert (zones + [z])[i] == zones[i]; }
  }

  lemma AddWellFormed(routes: seq<Route>, zones: seq<Zone>, z: Zone)
    requires AllWellFormed(routes, zones) && WellFormed(routes, z)
    ensures AllWellFormed(routes, zones + [z])
  {
  }

  /** `or_insert`: the entry of an earlier duplicate is kept. */
  function OrInsert(m: map<string, nat>, path: string, index: nat): map<string, nat> {
    if path in m then m else m[path := index]
  }

  lemma MapGrows(env: Env, routes: seq<Route>, n: nat, zones: seq<Zone>, m: map<string, nat>)
    requires n < |routes| && routes[n].path.Exact? && !HasPredicates(routes[n])
    requires StandFor(env, routes, n, zones + [ExactMap(m)])
    ensures StandFor(env, routes, n + 1, zones + [ExactMap(OrInsert(m, routes[n].path.path, n))])
  {
    var grown := OrInsert(m, routes[n].path.path, n);
    SplitLast(routes, zones, ExactMap(m));
    assert WellFormed(routes, ExactMap(grown));
    forall req ensures AllWellFormed(routes, zones + [ExactMap(grown)])
                    && Walk(env, routes, zones + [ExactMap(grown)], req) == FirstMatch(env, routes, n + 1, req) {
      WalkSnoc(env, routes, zones, ExactMap(m), req);
      WalkSnoc(env, routes, zones, ExactMap(grown), req);
    }
    AddWellFormed(routes, zones, ExactMap(grown));
  }

  lemma MapStarts(env: Env, routes: seq<Route>, n: nat, zones: seq<Zone>)
    requires n < |routes| && routes[n].path.Exact? && !HasPredicates(routes[n])
    requires StandFor(env, routes, n, zones)
    ensures StandFor(env, routes, n + 1, zones + [ExactMap(map[routes[n].path.path := n])])
  {
    assert StandFor(env, routes, n, zones + [ExactMap(map[])]) by {
      AddWellFormed(routes, zones, ExactMap(map[]));
      forall req ensures Walk(env, routes, zones + [ExactMap(map[])], req) == FirstMatch(env, routes, n, req) {
        WalkSnoc(env, routes, zones, ExactMap(map[]), req);
      }
    }
    MapGrows(env, routes, n, zones, map[]);
  }

  ghost predicate BadPattern(env: Env, r: Route) { r.path.Regex? && !env.compiles(r.path.pattern) }

  /** The zone-building loop. It fails exactly when a path pattern does not compile; otherwise looking
      a request up zone by zone is scanning the routes in order, for every route list and request. */
  method CompileZones(env: Env, routes: seq<Route>) returns (r: Result<seq<Zone>, string>)
    ensures r.Err? <==> exists i :: 0 <= i < |routes| && BadPattern(env, routes[i])
    ensures r.Ok? ==> StandFor(env, routes, |routes|, r.value)
  {
    var zones: seq<Zone> := [];
    var linear: Option<seq<CompiledRoute>> := None;
    var byPath: Option<map<string, nat>> := None;
    for index := 0 to |routes|
      invariant linear.None? || byPath.None?
      invariant StandFor(env, routes, index, Flushed(zones, linear, byPath))
      invariant forall i :: 0 <= i < index ==> !BadPattern(env, routes[i])
    {
      var route := routes[index];
      if route.path.Exact? && !HasPredicates(route) {
        if linear.Some? {
          zones := zones + [Linear(linear.value)];
          linear := None;
        }
        if byPath.Some? {
          MapGrows(env, routes, index, zones, byPath.value);
          byPath := Some(OrInsert(byPath.value, route.path.path, index));
        } else {
          MapStarts(env, routes, index, zones);
          byPath := Some(map[route.path.path := index]);
        }
      } else {
        if byPath.Some? {
          zones := zones + [ExactMap(byPath.value)];
          byPath := None;
        }
        var regex := None;
        if route.path.Regex? {
          if !env.compiles(route.path.pattern) { return Err(route.path.pattern); }
          regex := Some(route.path.pattern);
        }
        var compiled := CompiledRoute(index, regex);
        if linear.Some? {
          LinearGrows(env, routes, index, zones, linear.value, compiled);
          linear := Some(linear.value + [compiled]);
        } else {
          LinearStarts(env, routes, index, zones, compiled);
          linear := Some([compiled]);
        }
      }
    }
    if linear.Some? { zones := zones + [Linear(linear.value)]; }
    if byPath.Some? { zones := zones + [ExactMap(byPath.value)]; }
    r := Ok(zones);
  }

  /* ---- hosts ---- */

  predicate IsWildcard(host: string) { '*' in host }

  predicate HostMatches(pattern: string, host: Option<string>) {
    if pattern == "*" then true
    else if "*." <= pattern then
      var suffix := pattern[2..];
      && host.Some? && EndsWith(host.value, suffix)
      && |host.value| > |suffix| && host.value[|host.value| - |suffix| - 1] == '.'
    else if EndsWith(pattern, ".*") then
      var prefix := pattern[..|pattern| - 2];
      host.Some? && prefix <= host.value && |host.value| > |prefix| && host.value[|prefix|] == '.'
    else host == Some(pattern)
  }

  /** `*.suffix` stands for any left part, even an empty one, and a dot. */
  lemma SuffixPatternMeaning(name: string, h: string)
    ensures HostMatches("*." + name, Some(h)) <==> exists x :: h == x + "." + name
  {
    assert ("*." + name)[2..] == name;
    if HostMatches("*." + name, Some(h)) {
      Cut(h, |h| - |name| - 1);
    }
    if x :| h == x + "." + name {
      assert h[|h| - |name|..] == name && h[|x|] == '.';
    }
  }

  /** `prefix.*` stands for a dot and any right part, unless the pattern also begins with `*.`, which is
      tried first. */
  lemma PrefixPatternMeaning(name: string, h: string)
    requires !("*." <= name + ".*")
    ensures HostMatches(name + ".*", Some(h)) <==> exists x :: h == name + "." + x
  {
    var p := name + ".*";
    assert p[..|p| - 2] == name && p[|p| - 2..] == ".*";
    if HostMatches(p, Some(h)) {
      Cut(h, |name|);
      assert h[..|name|] == name;
      assert h == name + "." + h[|name| + 1..];
    }
    if x :| h == name + "." + x {
      assert h[|name|] == '.' && h[..|name|] == name;
    }
  }

  /** The bare `*` fits every request, with or without a host; any other pattern needs one, and a pattern with the
      star elsewhere must be that host. */
  lemma OtherPatternMeaning(pattern: string, host: Option<string>)
    ensures pattern == "*" ==> HostMatches(pattern, host)
    ensures pattern != "*" && host.None? ==> !HostMatches(pattern, host)
    ensures pattern != "*" && !("*." <= pattern) && !EndsWith(pattern, ".*") ==>
              (HostMatches(pattern, host) <==> host == Some(pattern))
  {
  }

  lemma Cut(h: string, n: nat)
    requires n < |h| && h[n] == '.'
    ensures h == h[..n] + "." + h[n + 1..]
  {
  }

  /** `str::find`: the index of the first occurrence, or the length. */
  function IndexOf(s: string, c: char): (i: nat)
    ensures i <= |s| && (i < |s| ==> s[i] == c) && forall k :: 0 <= k < i ==> s[k] != c
  {
    if s == "" || s[0] == c then 0 else 1 + IndexOf(s[1..], c)
  }

  function NormalizeHost(host: string): string {
    if "[" <= host && IndexOf(host[1..], ']') < |host| - 1 then host[1..][..IndexOf(host[1..], ']')]
    else host[..IndexOf(host, ':')]
  }

  /** A closed bracket gives the address inside it; any other host, an unclosed bracket included, is cut
      at its first colon. */
  lemma NormalizeHostMeaning(host: string)
    ensures var r := NormalizeHost(host);
            if "[" <= host && ']' in host[1..] then ']' !in r && "[" + r + "]" <= host
            else ':' !in r && (host == r || r + ":" <= host)
  {
    if "[" <= host {
      var rest := host[1..];
      var i := IndexOf(rest, ']');
      assert ']' in rest <==> i < |rest|;
      if i < |rest| { assert host == "[" + rest[..i] + "]" + rest[i + 1..]; }
    }
    var k := IndexOf(host, ':');
    if k < |host| { assert host == host[..k] + ":" + host[k + 1..]; }
  }

  /* ---- the router ---- */

  datatype CompiledHost = CompiledHost(id: nat, config: VirtualHost, zones: seq<Zone>)

  datatype Tables = Tables(exact: map<string, CompiledHost>, wildcards: seq<CompiledHost>)

  /** Which virtual host of the configuration, and which of its routes. */
  datatype Selection = Selection(host: nat, route: nat)

  ghost function HostHit(env: Env, hosts: seq<VirtualHost>, i: nat, req: Request): Option<Selection>
    requires i < |hosts|
  {
    var k := FirstMatch(env, hosts[i].routes, |hosts[i].routes|, req);
    if k.Some? then Some(Selection(i, k.value)) else None
  }

  /** The last of the first `n` virtual hosts with exactly this name. */
  ghost function LastNamed(hosts: seq<VirtualHost>, n: nat, name: string): Option<nat>
    requires n <= |hosts|
  {
    if n == 0 then None
    else if hosts[n - 1].host == name && !IsWildcard(name) then Some(n - 1)
    else LastNamed(hosts, n - 1, name)
  }

  /** The first hit among the first `n` virtual hosts whose pattern fits. */
  ghost function WildcardHit(
    env: Env, hosts: seq<VirtualHost>, n: nat, host: Option<string>, req: Request): Option<Selection>
    requires n <= |hosts|
  {
    if n == 0 then None
    else
      var earlier := WildcardHit(env, hosts, n - 1, host, req);
      if earlier.Some? then earlier
      else if IsWildcard(hosts[n - 1].host) && HostMatches(hosts[n - 1].host, host) then HostHit(env, hosts, n - 1, req)
      else None
  }

  /** The reference, on the configuration itself: the virtual host named by the request, then those
      whose pattern fits, in order; in each, the first route that matches. */
  ghost function Reference(env: Env, hosts: seq<VirtualHost>, header: Option<string>, req: Request): Option<Selection> {
    var host := if header.Some? then Some(NormalizeHost(header.value)) else None;
    var named := if host.Some? then LastNamed(hosts, |hosts|, host.value) else None;
    var hit := if named.Some? then HostHit(env, hosts, NamedIndex(hosts, host.value), req) else None;
    if hit.Some? then hit else WildcardHit(env, hosts, |hosts|, host, req)
  }

  lemma {:induction false} LastNamedBound(hosts: seq<VirtualHost>, n: nat, name: string)
    requires n <= |hosts|
    ensures LastNamed(hosts, n, name).Some? ==> LastNamed(hosts, n, name).value < n
  {
    if n > 0 { LastNamedBound(hosts, n - 1, name); }
  }

  ghost function NamedIndex(hosts: seq<VirtualHost>, name: string): (i: nat)
    requires LastNamed(hosts, |hosts|, name).Some?
    ensures i < |hosts|
  {
    LastNamedBound(hosts, |hosts|, name);
    LastNamed(hosts, |hosts|, name).value
  }

  /* ---- what the selection means ---- */

  /** The virtual host a request names: of those with that very name and no star in it, the last. */
  ghost predicate IsNamed(hosts: seq<VirtualHost>, i: nat, host: Option<string>) {
    && i < |hosts| && host == Some(hosts[i].host) && '*' !in hosts[i].host
    && forall j | i < j < |hosts| :: hosts[j].host != hosts[i].host
  }

  ghost predicate IsPattern(hosts: seq<VirtualHost>, i: nat, host: Option<string>) {
    i < |hosts| && '*' in hosts[i].host && HostMatches(hosts[i].host, host)
  }

  /** The first route of a virtual host that admits the request. */
  ghost predicate IsFirst(env: Env, h: VirtualHost, k: nat, req: Request) {
    && k < |h.routes| && Admits(env, h.routes[k], req)
    && forall i | 0 <= i < k :: !Admits(env, h.routes[i], req)
  }

  ghost predicate Refuses(env: Env, h: VirtualHost, req: Request) {
    forall i | 0 <= i < |h.routes| :: !Admits(env, h.routes[i], req)
  }

  ghost predicate Selected(env: Env, hosts: seq<VirtualHost>, host: Option<string>, req: Request, s: Selection) {
    && s.host < |hosts| && IsFirst(env, hosts[s.host], s.route, req)
    && (|| IsNamed(hosts, s.host, host)
        || (&& IsPattern(hosts, s.host, host)
            && (forall i | 0 <= i < |hosts| :: IsNamed(hosts, i, host) ==> Refuses(env, hosts[i], req))
            && forall i | 0 <= i < s.host :: IsPattern(hosts, i, host) ==> Refuses(env, hosts[i], req)))
  }

  ghost predicate Unmatched(env: Env, hosts: seq<VirtualHost>, host: Option<string>, req: Request) {
    forall i | 0 <= i < |hosts| :: IsNamed(hosts, i, host) || IsPattern(hosts, i, host) ==> Refuses(env, hosts[i], req)
  }

  lemma HostHitMeaning(env: Env, hosts: seq<VirtualHost>, i: nat, req: Request)
    requires i < |hosts|
    ensures var r := HostHit(env, hosts, i, req);
            && (r.Some? ==> r.value.host == i && IsFirst(env, hosts[i], r.value.route, req))
            && (r.None? ==> Refuses(env, hosts[i], req))
  {
    FirstMatchMeaning(env, hosts[i].routes, |hosts[i].routes|, req);
    forall k | 0 <= k < |hosts[i].routes|
      ensures Matches(env, hosts[i].routes[k], req) <==> Admits(env, hosts[i].routes[k], req)
    {
      MatchesMeaning(env, hosts[i].routes[k], req);
    }
  }

  lemma {:induction false} LastNamedMeaning(hosts: seq<VirtualHost>, n: nat, name: string)
    requires n <= |hosts|
    ensures var k := LastNamed(hosts, n, name);
            && (k.Some? ==> && k.value < n && hosts[k.value].host == name && '*' !in name
                            && forall j | k.value < j < n :: hosts[j].host != name)
            && (k.None? ==> '*' in name || forall j | 0 <= j < n :: hosts[j].host != name)
  {
    if n > 0 { LastNamedMeaning(hosts, n - 1, name); }
  }

  lemma {:induction false} WildcardHitMeaning(
    env: Env, hosts: seq<VirtualHost>, n: nat, host: Option<string>, req: Request)
    requires n <= |hosts|
    ensures var r := WildcardHit(env, hosts, n, host, req);
            && (r.Some? ==>
                  && r.value.host < n && IsPattern(hosts, r.value.host, host)
                  && IsFirst(env, hosts[r.value.host], r.value.route, req)
                  && forall i | 0 <= i < r.value.host :: IsPattern(hosts, i, host) ==> Refuses(env, hosts[i], req))
            && (r.None? ==> forall i | 0 <= i < n :: IsPattern(hosts, i, host) ==> Refuses(env, hosts[i], req))
  {
    if n > 0 {
      WildcardHitMeaning(env, hosts, n - 1, host, req);
      HostHitMeaning(env, hosts, n - 1, req);
    }
  }

  lemma NamedIsOne(hosts: seq<VirtualHost>, i: nat, j: nat, host: Option<string>)
    requires IsNamed(hosts, i, host) && IsNamed(hosts, j, host)
    ensures i == j
  {
  }

  /** The reference selects what the configuration says, and answers nothing exactly when no virtual host that fits
      the request has a route that admits it. */
  lemma ReferenceMeaning(env: Env, hosts: seq<VirtualHost>, header: Option<string>, req: Request)
    ensures var host := if header.Some? then Some(NormalizeHost(header.value)) else None;
            match Reference(env, hosts, header, req)
            case Some(s) => Selected(env, hosts, host, req, s)
            case None => Unmatched(env, hosts, host, req)
  {
    var host := if header.Some? then Some(NormalizeHost(header.value)) else None;
    WildcardHitMeaning(env, hosts, |hosts|, host, req);
    if host.Some? {
      LastNamedMeaning(hosts, |hosts|, host.value);
      var named := LastNamed(hosts, |hosts|, host.value);
      if named.Some? {
        HostHitMeaning(env, hosts, named.value, req);
        assert IsNamed(hosts, named.value, host);
        forall i: nat | IsNamed(hosts, i, host) ensures i == named.value { NamedIsOne(hosts, i, named.value, host); }
      }
    }
  }

  /** At most one route can be selected, and none when nothing matches: so the answer is determined. */
  lemma SelectionIsUnique(
    env: Env, hosts: seq<VirtualHost>, host: Option<string>, req: Request, s: Selection, t: Selection)
    requires Selected(env, hosts, host, req, s)
    ensures !Unmatched(env, hosts, host, req)
    ensures Selected(env, hosts, host, req, t) ==> s == t
  {
    if Selected(env, hosts, host, req, t) {
      if IsNamed(hosts, s.host, host) && IsNamed(hosts, t.host, host) { NamedIsOne(hosts, s.host, t.host, host); }
      assert s.host == t.host;
    }
  }

  lemma AnswerIsDetermined(env: Env, hosts: seq<VirtualHost>, header: Option<string>, req: Request)
    ensures var host := if header.Some? then Some(NormalizeHost(header.value)) else None;
            && (forall s :: Reference(env, hosts, header, req) == Some(s) <==> Selected(env, hosts, host, req, s))
            && (Reference(env, hosts, header, req) == None <==> Unmatched(env, hosts, host, req))
  {
    var host := if header.Some? then Some(NormalizeHost(header.value)) else None;
    var r := Reference(env, hosts, header, req);
    ReferenceMeaning(env, hosts, header, req);
    forall s ensures r == Some(s) <==> Selected(env, hosts, host, req, s) {
      if r.Some? { SelectionIsUnique(env, hosts, host, req, r.value, s); }
      else if Selected(env, hosts, host, req, s) { SelectionIsUnique(env, hosts, host, req, s, s); }
    }
    if r.Some? { SelectionIsUnique(env, hosts, host, req, r.value, r.value); }
  }

  ghost predicate Compiled(env: Env, hosts: seq<VirtualHost>, c: CompiledHost) {
    c.id < |hosts| && c.config == hosts[c.id] && StandFor(env, c.config.routes, |c.config.routes|, c.zones)
  }

  ghost function WildcardWalk(
    env: Env, hosts: seq<VirtualHost>, cs: seq<CompiledHost>, host: Option<string>, req: Request): Option<Selection>
    requires forall i :: 0 <= i < |cs| ==> Compiled(env, hosts, cs[i])
  {
    if cs == [] then None
    else
      var n := |cs| - 1;
      assert Compiled(env, hosts, cs[n]);
      var earlier := WildcardWalk(env, hosts, cs[..n], host, req);
      if earlier.Some? then earlier
      else if HostMatches(cs[n].config.host, host) then HostHit(env, hosts, cs[n].id, req)
      else None
  }

  ghost predicate NamesRight(env: Env, hosts: seq<VirtualHost>, n: nat, exact: map<string, CompiledHost>)
    requires n <= |hosts|
  {
    forall name :: (name in exact <==> LastNamed(hosts, n, name).Some?)
                && (name in exact ==>
                      Compiled(env, hosts, exact[name]) && LastNamed(hosts, n, name) == Some(exact[name].id))
  }

  ghost predicate PatternsRight(env: Env, hosts: seq<VirtualHost>, n: nat, cs: seq<CompiledHost>)
    requires n <= |hosts|
  {
    && (forall i :: 0 <= i < |cs| ==> Compiled(env, hosts, cs[i]))
    && forall host, req :: WildcardWalk(env, hosts, cs, host, req) == WildcardHit(env, hosts, n, host, req)
  }

  lemma PatternAdds(env: Env, hosts: seq<VirtualHost>, n: nat, cs: seq<CompiledHost>, c: CompiledHost)
    requires n < |hosts| && PatternsRight(env, hosts, n, cs)
    requires Compiled(env, hosts, c) && c.id == n && IsWildcard(hosts[n].host)
    ensures PatternsRight(env, hosts, n + 1, cs + [c])
  {
    assert (cs + [c])[..|cs + [c]| - 1] == cs;
    assert forall i :: 0 <= i < |cs + [c]| ==> Compiled(env, hosts, (cs + [c])[i]);
    forall host, req
      ensures WildcardWalk(env, hosts, cs + [c], host, req) == WildcardHit(env, hosts, n + 1, host, req)
    {
      assert WildcardWalk(env, hosts, cs, host, req) == WildcardHit(env, hosts, n, host, req);
    }
  }

  lemma PatternSkips(env: Env, hosts: seq<VirtualHost>, n: nat, cs: seq<CompiledHost>)
    requires n < |hosts| && PatternsRight(env, hosts, n, cs) && !IsWildcard(hosts[n].host)
    ensures PatternsRight(env, hosts, n + 1, cs)
  {
  }

  ghost predicate BadHost(env: Env, h: VirtualHost) {
    exists k :: 0 <= k < |h.routes| && BadPattern(env, h.routes[k])
  }

  /** `Router::with_regex`. */
  method Build(env: Env, hosts: seq<VirtualHost>) returns (r: Result<Tables, string>)
    ensures r.Err? <==> exists i :: 0 <= i < |hosts| && BadHost(env, hosts[i])
    ensures r.Ok? ==> NamesRight(env, hosts, |hosts|, r.value.exact)
    ensures r.Ok? ==> PatternsRight(env, hosts, |hosts|, r.value.wildcards)
  {
    var exact: map<string, CompiledHost> := map[];
    var wildcards: seq<CompiledHost> := [];
    for i := 0 to |hosts|
      invariant forall k :: 0 <= k < i ==> !BadHost(env, hosts[k])
      invariant NamesRight(env, hosts, i, exact)
      invariant PatternsRight(env, hosts, i, wildcards)
    {
      var zones := CompileZones(env, hosts[i].routes);
      if zones.Err? { return Err(zones.error); }
      var compiled := CompiledHost(i, hosts[i], zones.value);
      if IsWildcard(hosts[i].host) {
        PatternAdds(env, hosts, i, wildcards, compiled);
        wildcards := wildcards + [compiled];
      } else {
        PatternSkips(env, hosts, i, wildcards);
        exact := exact[hosts[i].host := compiled];
      }
    }
    r := Ok(Tables(exact, wildcards));
  }

  lemma WalkNone(env: Env, routes: seq<Route>, zones: seq<Zone>, i: nat, req: Request)
    requires AllWellFormed(routes, zones) && i < |zones| && Walk(env, routes, zones[..i], req).None?
    ensures Walk(env, routes, zones[..i + 1], req) == ZoneHit(env, routes, zones[i], req)
  {
    assert zones[..i + 1] == zones[..i] + [zones[i]];
    WalkSnoc(env, routes, zones[..i], zones[i], req);
  }

  lemma {:induction false} WalkKeepsHit(env: Env, routes: seq<Route>, zones: seq<Zone>, i: nat, req: Request)
    requires AllWellFormed(routes, zones) && i <= |zones| && Walk(env, routes, zones[..i], req).Some?
    ensures Walk(env, routes, zones, req) == Walk(env, routes, zones[..i], req)
    decreases |zones| - i
  {
    if i == |zones| {
      assert zones[..i] == zones;
    } else {
      assert zones[..i + 1] == zones[..i] + [zones[i]];
      WalkSnoc(env, routes, zones[..i], zones[i], req);
      WalkKeepsHit(env, routes, zones, i + 1, req);
    }
  }

  lemma {:induction false} LinearKeepsHit(env: Env, routes: seq<Route>, cs: seq<CompiledRoute>, i: nat, req: Request)
    requires WellFormed(routes, Linear(cs)) && i <= |cs| && LinearHit(env, routes, cs[..i], req).Some?
    ensures LinearHit(env, routes, cs, req) == LinearHit(env, routes, cs[..i], req)
    decreases |cs| - i
  {
    if i == |cs| {
      assert cs[..i] == cs;
    } else {
      assert cs[..i + 1] == cs[..i] + [cs[i]];
      LinearSnoc(env, routes, cs[..i], cs[i], req);
      LinearKeepsHit(env, routes, cs, i + 1, req);
    }
  }

  /** The scan of a linear zone. */
  method ScanLinear(env: Env, routes: seq<Route>, cs: seq<CompiledRoute>, req: Request) returns (k: Option<nat>)
    requires WellFormed(routes, Linear(cs))
    ensures k == LinearHit(env, routes, cs, req)
  {
    for i := 0 to |cs|
      invariant LinearHit(env, routes, cs[..i], req).None?
    {
      assert cs[..i + 1] == cs[..i] + [cs[i]];
      LinearSnoc(env, routes, cs[..i], cs[i], req);
      if CompiledMatches(env, routes, cs[i], req) {
        LinearKeepsHit(env, routes, cs, i + 1, req);
        return Some(cs[i].index);
      }
    }
    assert cs[..|cs|] == cs;
    k := None;
  }

  /** The walk over the zones of one virtual host finds the first matching route. */
  method TryMatch(env: Env, c: CompiledHost, req: Request) returns (k: Option<nat>)
    requires StandFor(env, c.config.routes, |c.config.routes|, c.zones)
    ensures k == FirstMatch(env, c.config.routes, |c.config.routes|, req)
  {
    for i := 0 to |c.zones|
      invariant Walk(env, c.config.routes, c.zones[..i], req).None?
    {
      WalkNone(env, c.config.routes, c.zones, i, req);
      match c.zones[i] {
        case Linear(cs) =>
          k := ScanLinear(env, c.config.routes, cs, req);
        case ExactMap(m) =>
          if req.path in m && MatchesMethod(c.config.routes[m[req.path]].methods, req.verb)
             && MatchesHeaders(env, c.config.routes[m[req.path]].headers, req) {
            k := Some(m[req.path]);
          } else {
            k := None;
          }
      }
      if k.Some? {
        WalkKeepsHit(env, c.config.routes, c.zones, i + 1, req);
        return;
      }
    }
    assert c.zones[..|c.zones|] == c.zones;
    k := None;
  }

  lemma {:induction false} WildcardKeepsHit(
    env: Env, hosts: seq<VirtualHost>, cs: seq<CompiledHost>, i: nat, host: Option<string>, req: Request)
    requires (forall j :: 0 <= j < |cs| ==> Compiled(env, hosts, cs[j])) && i <= |cs|
    requires WildcardWalk(env, hosts, cs[..i], host, req).Some?
    ensures WildcardWalk(env, hosts, cs, host, req) == WildcardWalk(env, hosts, cs[..i], host, req)
    decreases |cs| - i
  {
    if i == |cs| {
      assert cs[..i] == cs;
    } else {
      assert cs[..i + 1][..i] == cs[..i];
      WildcardKeepsHit(env, hosts, cs, i + 1, host, req);
    }
  }

  /** The second half of `match_request`: the wildcard hosts, in order. */
  method MatchWildcards(env: Env, hosts: seq<VirtualHost>, cs: seq<CompiledHost>, host: Option<string>, req: Request)
    returns (r: Option<Selection>)
    requires PatternsRight(env, hosts, |hosts|, cs)
    ensures r == WildcardHit(env, hosts, |hosts|, host, req)
  {
    for i := 0 to |cs|
      invariant WildcardWalk(env, hosts, cs[..i], host, req).None?
    {
      assert Compiled(env, hosts, cs[i]);
      assert cs[..i + 1][..i] == cs[..i];
      if HostMatches(cs[i].config.host, host) {
        var k := TryMatch(env, cs[i], req);
        if k.Some? {
          WildcardKeepsHit(env, hosts, cs, i + 1, host, req);
          return Some(Selection(cs[i].id, k.value));
        }
      }
    }
    assert cs[..|cs|] == cs;
    r := None;
  }

  /** `match_request`: the tables answer every request as the reference on the configuration does. */
  method MatchRequest(env: Env, hosts: seq<VirtualHost>, t: Tables, header: Option<string>, req: Request)
    returns (r: Option<Selection>)
    requires NamesRight(env, hosts, |hosts|, t.exact) && PatternsRight(env, hosts, |hosts|, t.wildcards)
    ensures r == Reference(env, hosts, header, req)
    ensures var host := if header.Some? then Some(NormalizeHost(header.value)) else None;
            && (forall s :: r == Some(s) <==> Selected(env, hosts, host, req, s))
            && (r == None <==> Unmatched(env, hosts, host, req))
  {
    AnswerIsDetermined(env, hosts, header, req);
    var host := if header.Some? then Some(NormalizeHost(header.value)) else None;
    if host.Some? && host.value in t.exact {
      var c := t.exact[host.value];
      var k := TryMatch(env, c, req);
      if k.Some? { return Some(Selection(c.id, k.value)); }
    }
    r := MatchWildcards(env, hosts, t.wildcards, host, req);
  }
}
