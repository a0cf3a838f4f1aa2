/** Two cross-entity checks of a configuration (pavis-core, validate.rs): automatic SNI needs a DNS
    endpoint or host rewrites, and ports must not collide. */
module Validation {
  import opened Common

  /* ---- automatic SNI ---- */

  datatype Verify = Full | NotFull

  datatype SniName = Auto | Named(name: string)

  datatype CanonicalSni = NoCanonical | Canonical(name: string)

  datatype Tls = TlsDisabled | TlsEnabled(verify: Verify, sni: SniName, canonical: CanonicalSni, reuseAcrossSni: bool)

  datatype Endpoint = Dns(host: string) | Ip(address: string)

  datatype Upstream = Upstream(name: string, tls: Tls, endpoints: seq<Endpoint>)

  datatype RewriteHost = Keep | Literal(host: string)

  datatype Action = Forward(destinations: seq<string>) | Respond

  datatype Route = Route(rewriteHost: RewriteHost, action: Action)

  datatype VirtualHost = VirtualHost(paths: seq<Route>)

  predicate HasDns(u: Upstream) { exists i :: 0 <= i < |u.endpoints| && u.endpoints[i].Dns? }

  /** Full verification with an SNI name that nothing supplies. */
  predicate Nameless(u: Upstream) {
    u.tls.TlsEnabled? && u.tls.verify.Full? && u.tls.sni.Auto? && u.tls.canonical.NoCanonical? && !HasDns(u)
  }

  /** Cross-SNI reuse leaves such an upstream no way out. */
  predicate Hopeless(u: Upstream) { Nameless(u) && u.tls.reuseAcrossSni }

  /** Without reuse, every route to it has to say the host itself. */
  predicate NeedsRewrite(u: Upstream) { Nameless(u) && !u.tls.reuseAcrossSni }

  predicate Refers(r: Route, name: string) { r.action.Forward? && name in r.action.destinations }

  ghost predicate Exposes(r: Route, name: string) { Refers(r, name) && !r.rewriteHost.Literal? }

  ghost predicate HostRefers(h: VirtualHost, name: string) {
    exists i :: 0 <= i < |h.paths| && Refers(h.paths[i], name)
  }

  ghost predicate HostExposes(h: VirtualHost, name: string) {
    exists i :: 0 <= i < |h.paths| && Exposes(h.paths[i], name)
  }

  ghost predicate Exposed(hosts: seq<VirtualHost>, name: string) {
    exists i :: 0 <= i < |hosts| && HostExposes(hosts[i], name)
  }

  ghost predicate Referenced(hosts: seq<VirtualHost>, name: string) {
    exists i :: 0 <= i < |hosts| && HostRefers(hosts[i], name)
  }

  ghost predicate NameNeedsRewrite(upstreams: seq<Upstream>, name: string) {
    exists i :: 0 <= i < |upstreams| && upstreams[i].name == name && NeedsRewrite(upstreams[i])
  }

  datatype OverrideState = OverrideState(referenced: bool, missingRewrite: bool)

  /** The marks one route leaves. */
  method MarkRoute(needs: map<string, OverrideState>, r: Route) returns (marked: map<string, OverrideState>)
    ensures marked.Keys == needs.Keys
    ensures forall n :: n in needs ==>
              marked[n] == OverrideState(needs[n].referenced || Refers(r, n), needs[n].missingRewrite || Exposes(r, n))
  {
    marked := needs;
    if r.action.Forward? {
      for i := 0 to |r.action.destinations|
        invariant marked.Keys == needs.Keys
        invariant forall n :: n in needs ==>
          var hit := n in r.action.destinations[..i];
          marked[n] == OverrideState(needs[n].referenced || hit,
                                     needs[n].missingRewrite || (hit && !r.rewriteHost.Literal?))
      {
        var d := r.action.destinations[i];
        assert r.action.destinations[..i + 1] == r.action.destinations[..i] + [d];
        if d in marked {
          var state := marked[d].(referenced := true);
          if !r.rewriteHost.Literal? { state := state.(missingRewrite := true); }
          marked := marked[d := state];
        }
      }
      assert r.action.destinations[..|r.action.destinations|] == r.action.destinations;
    }
  }

  method MarkHost(needs: map<string, OverrideState>, h: VirtualHost) returns (marked: map<string, OverrideState>)
    ensures marked.Keys == needs.Keys
    ensures forall n :: n in needs ==>
              && (marked[n].referenced <==> needs[n].referenced || HostRefers(h, n))
              && (marked[n].missingRewrite <==> needs[n].missingRewrite || HostExposes(h, n))
  {
    marked := needs;
    for i := 0 to |h.paths|
      invariant marked.Keys == needs.Keys
      invariant forall n :: n in needs ==>
        && (marked[n].referenced <==> needs[n].referenced || exists k :: 0 <= k < i && Refers(h.paths[k], n))
        && (marked[n].missingRewrite <==> needs[n].missingRewrite || exists k :: 0 <= k < i && Exposes(h.paths[k], n))
    {
      marked := MarkRoute(marked, h.paths[i]);
    }
  }

  /** The first pass: refuses at the first hopeless upstream, and collects the names that need rewrites. */
  method CollectNeeds(upstreams: seq<Upstream>) returns (r: Result<map<string, OverrideState>, string>)
    ensures r.Err? <==> exists i :: 0 <= i < |upstreams| && Hopeless(upstreams[i])
    ensures r.Err? ==> exists i :: 0 <= i < |upstreams| && Hopeless(upstreams[i]) && upstreams[i].name == r.error
                                   && forall k :: 0 <= k < i ==> !Hopeless(upstreams[k])
    ensures r.Ok? ==> forall n :: n in r.value <==> NameNeedsRewrite(upstreams, n)
    ensures r.Ok? ==> forall n :: n in r.value ==> r.value[n] == OverrideState(false, false)
  {
    var needs: map<string, OverrideState> := map[];
    for i := 0 to |upstreams|
      invariant forall k :: 0 <= k < i ==> !Hopeless(upstreams[k])
      invariant forall n :: n in needs <==>
        exists k :: 0 <= k < i && upstreams[k].name == n && NeedsRewrite(upstreams[k])
      invariant forall n :: n in needs ==> needs[n] == OverrideState(false, false)
    {
      var u := upstreams[i];
      if u.tls.TlsEnabled? && u.tls.verify.Full? && u.tls.sni.Auto? && !u.tls.canonical.Canonical? {
        if u.tls.reuseAcrossSni {
          if !HasDns(u) { return Err(u.name); }
        } else if !HasDns(u) {
          needs := needs[u.name := OverrideState(false, false)];
        }
      }
    }
    r := Ok(needs);
  }

  /** `validate_sni_auto_requires_dns_or_rewrite`. The map of the second pass is read out in any order.
      The configuration is accepted exactly when no upstream is hopeless and no route without a
      literal host forwards to one that needs rewrites; the upstream named in an error is at fault. */
  method ValidateSni(hosts: seq<VirtualHost>, upstreams: seq<Upstream>) returns (r: Option<string>)
    ensures r.None? <==>
            && (forall i :: 0 <= i < |upstreams| ==> !Hopeless(upstreams[i]))
            && (forall i :: 0 <= i < |upstreams| && NeedsRewrite(upstreams[i]) ==> !Exposed(hosts, upstreams[i].name))
    ensures r.Some? ==> exists i :: 0 <= i < |upstreams| && upstreams[i].name == r.value
                                    && (|| Hopeless(upstreams[i])
                                        || (NeedsRewrite(upstreams[i]) && Exposed(hosts, r.value)))
  {
    var collected := CollectNeeds(upstreams);
    if collected.Err? { return Some(collected.error); }
    var needs := collected.value;
    if needs == map[] {
      assert forall i :: 0 <= i < |upstreams| && NeedsRewrite(upstreams[i]) ==> upstreams[i].name in needs;
      return None;
    }
    for i := 0 to |hosts|
      invariant needs.Keys == collected.value.Keys
      invariant forall n :: n in needs ==>
        && (needs[n].referenced <==> exists k :: 0 <= k < i && HostRefers(hosts[k], n))
        && (needs[n].missingRewrite <==> exists k :: 0 <= k < i && HostExposes(hosts[k], n))
    {
      needs := MarkHost(needs, hosts[i]);
    }
    ExposedIsReferenced(hosts);
    var left := needs.Keys;
    while left != {}
      invariant left <= needs.Keys
      invariant forall n :: n in needs && n !in left ==> !Exposed(hosts, n)
      decreases left
    {
      var name :| name in left;
      if needs[name].referenced && needs[name].missingRewrite {
        assert NameNeedsRewrite(upstreams, name);
        return Some(name);
      }
      left := left - {name};
    }
    assert forall i :: 0 <= i < |upstreams| && NeedsRewrite(upstreams[i]) ==> upstreams[i].name in needs;
    r := None;
  }

  /** What the check refuses, in the words of the configuration: verification is full, the name is automatic and no
      canonical one is given, every endpoint is an address; and connections are shared across names, or some route
      forwards there without setting the host. */
  lemma RefusedMeaning(hosts: seq<VirtualHost>, u: Upstream)
    ensures var bare := u.tls.TlsEnabled? && u.tls.verify == Full && u.tls.sni == Auto && u.tls.canonical == NoCanonical
                        && forall e :: e in u.endpoints ==> e.Ip?;
            && (Hopeless(u) <==> bare && u.tls.reuseAcrossSni)
            && (NeedsRewrite(u) && Exposed(hosts, u.name) <==>
                bare && !u.tls.reuseAcrossSni
                && exists h, r :: h in hosts && r in h.paths && r.action.Forward? && u.name in r.action.destinations
                                  && r.rewriteHost == Keep)
  {
    DnsMeaning(u.endpoints);
    ExposedMeaning(hosts, u.name);
  }

  lemma DnsMeaning(endpoints: seq<Endpoint>)
    ensures (exists i :: 0 <= i < |endpoints| && endpoints[i].Dns?) <==> !forall e :: e in endpoints ==> e.Ip?
  {
    if i :| 0 <= i < |endpoints| && endpoints[i].Dns? { assert endpoints[i] in endpoints; }
  }

  lemma ExposedMeaning(hosts: seq<VirtualHost>, name: string)
    ensures Exposed(hosts, name) <==>
            exists h, r :: h in hosts && r in h.paths && r.action.Forward? && name in r.action.destinations
                           && r.rewriteHost == Keep
  {
    if Exposed(hosts, name) {
      var i :| 0 <= i < |hosts| && HostExposes(hosts[i], name);
      var k :| 0 <= k < |hosts[i].paths| && Exposes(hosts[i].paths[k], name);
      assert hosts[i] in hosts && hosts[i].paths[k] in hosts[i].paths;
    }
    if h, r :| h in hosts && r in h.paths && r.action.Forward? && name in r.action.destinations
               && r.rewriteHost == Keep {
      var i :| 0 <= i < |hosts| && hosts[i] == h;
      var k :| 0 <= k < |h.paths| && h.paths[k] == r;
      assert Exposes(h.paths[k], name) && HostExposes(hosts[i], name);
    }
  }

  /** The `referenced` mark adds nothing: an exposed upstream is referenced. */
  lemma ExposedIsReferenced(hosts: seq<VirtualHost>)
    ensures forall n :: Exposed(hosts, n) ==> Referenced(hosts, n)
  {
    forall n | Exposed(hosts, n) ensures Referenced(hosts, n) {
      var i :| 0 <= i < |hosts| && HostExposes(hosts[i], n);
      var k :| 0 <= k < |hosts[i].paths| && Exposes(hosts[i].paths[k], n);
      assert HostRefers(hosts[i], n);
    }
  }

  /* ---- ports ---- */

  datatype Bound = Bound(port: nat, owner: string)

  datatype Conflict = Conflict(port: nat, left: string, right: string)

  /** Everything that listens, in the order of the check. */
  function Bounds(listeners: seq<Bound>, admin: Option<nat>, metrics: Option<nat>): seq<Bound> {
    listeners + Optional(admin, "admin") + Optional(metrics, "metrics")
  }

  ghost predicate Distinct(bs: seq<Bound>) { forall i, j :: 0 <= i < j < |bs| ==> bs[i].port != bs[j].port }

  /** The conflict is the first entry that repeats a port, with the one entry before it on that port. */
  ghost predicate FirstConflict(bs: seq<Bound>, c: Conflict) {
    exists i, j :: 0 <= i < j < |bs| && Distinct(bs[..j])
                   && bs[i] == Bound(c.port, c.left) && bs[j] == Bound(c.port, c.right)
  }

  /** The table of ports seen so far. */
  ghost predicate Table(seen: map<nat, string>, bs: seq<Bound>) {
    && Distinct(bs)
    && (forall p :: p in seen <==> exists i :: 0 <= i < |bs| && bs[i].port == p)
    && (forall i :: 0 <= i < |bs| ==> bs[i].port in seen && seen[bs[i].port] == bs[i].owner)
  }

  /** One insertion: the table grows by an entry, or the entry is the first conflict. */
  method Claim(seen: map<nat, string>, b: Bound, ghost bs: seq<Bound>, ghost rest: seq<Bound>)
    returns (grown: map<nat, string>, conflict: Option<Conflict>)
    requires Table(seen, bs)
    ensures conflict.None? ==> Table(grown, bs + [b])
    ensures conflict.Some? ==> FirstConflict(bs + [b] + rest, conflict.value)
  {
    grown := seen[b.port := b.owner];
    if b.port in seen {
      ghost var all := bs + [b] + rest;
      ghost var i :| 0 <= i < |bs| && bs[i].port == b.port;
      assert all[i] == bs[i] && all[|bs|] == b && all[..|bs|] == bs;
      conflict := Some(Conflict(b.port, seen[b.port], b.owner));
      assert FirstConflict(all, conflict.value) by {
        assert all[i] == Bound(b.port, seen[b.port]);
      }
    } else {
      conflict := None;
      assert Table(grown, bs + [b]) by {
        assert (bs + [b])[|bs|] == b;
        forall p ensures p in grown <==> exists i :: 0 <= i < |bs + [b]| && (bs + [b])[i].port == p {
          if p in seen {
            var i :| 0 <= i < |bs| && bs[i].port == p;
            assert (bs + [b])[i].port == p;
          }
        }
      }
    }
  }

  /** The loop over the listeners. */
  method ClaimListeners(listeners: seq<Bound>, ghost rest: seq<Bound>)
    returns (seen: map<nat, string>, conflict: Option<Conflict>)
    ensures conflict.None? ==> Table(seen, listeners)
    ensures conflict.Some? ==> FirstConflict(listeners + rest, conflict.value)
  {
    seen, conflict := map[], None;
    for i := 0 to |listeners|
      invariant conflict.None? && Table(seen, listeners[..i])
    {
      SplitAt(listeners, i, rest);
      seen, conflict := Claim(seen, listeners[i], listeners[..i], listeners[i + 1..] + rest);
      if conflict.Some? { return; }
      Prefixes(listeners, i);
    }
    assert listeners[..|listeners|] == listeners;
  }

  lemma Prefixes(bs: seq<Bound>, i: nat)
    requires i < |bs|
    ensures bs[..i] + [bs[i]] == bs[..i + 1]
  {
  }

  lemma SplitAt(bs: seq<Bound>, i: nat, rest: seq<Bound>)
    requires i < |bs|
    ensures bs + rest == bs[..i] + [bs[i]] + (bs[i + 1..] + rest)
  {
    assert bs == bs[..i] + [bs[i]] + bs[i + 1..];
  }

  function Optional(port: Option<nat>, owner: string): seq<Bound> {
    if port.Some? then [Bound(port.value, owner)] else []
  }

  /** The admin interface or the metrics endpoint, if it is on. */
  method ClaimOptional(
    seen: map<nat, string>, port: Option<nat>, owner: string, ghost bs: seq<Bound>, ghost rest: seq<Bound>)
    returns (grown: map<nat, string>, conflict: Option<Conflict>)
    requires Table(seen, bs)
    ensures conflict.None? ==> Table(grown, bs + Optional(port, owner))
    ensures conflict.Some? ==> FirstConflict(bs + Optional(port, owner) + rest, conflict.value)
  {
    if port.Some? {
      grown, conflict := Claim(seen, Bound(port.value, owner), bs, rest);
    } else {
      assert bs + [] == bs;
      grown, conflict := seen, None;
    }
  }

  /** What is compared: every listener, then the admin port, then the metrics port, if they are on. */
  lemma BoundsMeaning(listeners: seq<Bound>, admin: Option<nat>, metrics: Option<nat>)
    ensures Distinct(Bounds(listeners, admin, metrics)) <==>
            && (forall i, j | 0 <= i < j < |listeners| :: listeners[i].port != listeners[j].port)
            && (admin.Some? ==> forall b | b in listeners :: b.port != admin.value)
            && (metrics.Some? ==> forall b | b in listeners :: b.port != metrics.value)
            && (admin.Some? && metrics.Some? ==> admin.value != metrics.value)
  {
    var all, n := Bounds(listeners, admin, metrics), |listeners|;
    assert all[..n] == listeners;
    assert admin.Some? ==> all[n] == Bound(admin.value, "admin");
    assert metrics.Some? ==> all[|all| - 1] == Bound(metrics.value, "metrics");
    if Distinct(all) {
      forall i, j | 0 <= i < j < n ensures listeners[i].port != listeners[j].port {
        assert all[i] == listeners[i] && all[j] == listeners[j];
      }
      forall b | b in listeners
        ensures (admin.Some? ==> b.port != admin.value) && (metrics.Some? ==> b.port != metrics.value)
      {
        var i :| 0 <= i < n && listeners[i] == b;
        assert all[i] == b;
      }
    }
  }

  /** `validate_port_conflicts`: accepted exactly when all ports differ, otherwise the first repeat. */
  method ValidatePorts(listeners: seq<Bound>, admin: Option<nat>, metrics: Option<nat>) returns (r: Option<Conflict>)
    ensures r.None? <==> Distinct(Bounds(listeners, admin, metrics))
    ensures r.Some? ==> FirstConflict(Bounds(listeners, admin, metrics), r.value)
  {
    ghost var a, m := Optional(admin, "admin"), Optional(metrics, "metrics");
    ghost var all := Bounds(listeners, admin, metrics);
    assert all == listeners + a + m == listeners + (a + m) == listeners + a + m + [];
    var seen: map<nat, string>;
    seen, r := ClaimListeners(listeners, a + m);
    if r.None? { seen, r := ClaimOptional(seen, admin, "admin", listeners, m); }
    if r.None? { seen, r := ClaimOptional(seen, metrics, "metrics", listeners + a, []); }
    if r.Some? { ConflictRefutes(all, r.value); }
  }

  lemma ConflictRefutes(bs: seq<Bound>, c: Conflict)
    requires FirstConflict(bs, c)
    ensures !Distinct(bs)
  {
  }
}
