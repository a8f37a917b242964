/** The per-client rate-limiter registry of the HTTP middleware and the rule
    that picks the client address a request is limited under.

    The token bucket of each client is a library object whose internals are
    not modelled: a `Bucket` records only the rate and burst it was created
    with. The registry maps a client address to its bucket and the time the
    address was last seen. Address parsing (`net.ParseIP`) and host/port
    splitting (`net.SplitHostPort`) are library calls, passed in as functions. */
module RateLimit {
  import opened Wrappers
  import Text
  import opened Collections

  /** A token bucket, identified by the parameters it was created with. */
  datatype Bucket = Bucket(rps: real, burst: int)

  datatype IpLimiter = IpLimiter(limiter: Bucket, lastSeen: int)

  datatype Registry = Registry(limiters: map<string, IpLimiter>, rps: real, burst: int)

  datatype RegistryStats = RegistryStats(totalEntries: int, rps: real, burst: int)

  function NewRegistry(rps: real, burst: int): (r: Registry)
    ensures |r.limiters| == 0 && r.rps == rps && r.burst == burst
  {
    Registry(map[], rps, burst)
  }

  /** The bucket of `ip`, created with the registry's rate and burst on first
      sight. Either way `ip` is marked as seen now, and no other client's entry
      changes. */
  function GetLimiter(r: Registry, ip: string, now: int): (res: (Registry, Bucket))
    ensures res.0.rps == r.rps && res.0.burst == r.burst
    ensures res.0.limiters.Keys == r.limiters.Keys + {ip}
    ensures res.0.limiters[ip].lastSeen == now
    ensures res.1 == res.0.limiters[ip].limiter
    ensures ip in r.limiters ==> res.1 == r.limiters[ip].limiter
    ensures ip !in r.limiters ==> res.1 == Bucket(r.rps, r.burst)
    ensures forall other :: other in r.limiters && other != ip ==> res.0.limiters[other] == r.limiters[other]
    ensures |res.0.limiters| == |r.limiters| + (if ip in r.limiters then 0 else 1)
  {
    if ip in r.limiters then
      var entry := r.limiters[ip];
      (r.(limiters := r.limiters[ip := entry.(lastSeen := now)]), entry.limiter)
    else
      var entry := IpLimiter(Bucket(r.rps, r.burst), now);
      (r.(limiters := r.limiters[ip := entry]), entry.limiter)
  }

  /** An entry is stale when it was last seen strictly before `now - maxAge`. */
  predicate Stale(e: IpLimiter, now: int, maxAge: int) {
    e.lastSeen < now - maxAge
  }

  /** The registry without its stale entries. */
  function Fresh(r: Registry, now: int, maxAge: int): (r': Registry)
    ensures r'.rps == r.rps && r'.burst == r.burst
    ensures forall ip :: ip in r'.limiters <==> ip in r.limiters && !Stale(r.limiters[ip], now, maxAge)
    ensures forall ip :: ip in r'.limiters ==> r'.limiters[ip] == r.limiters[ip]
  {
    r.(limiters := map ip | ip in r.limiters && !Stale(r.limiters[ip], now, maxAge) :: r.limiters[ip])
  }

  /** Removes every entry last seen before `now - maxAge`, one at a time as the
      Go loop does, and answers how many were removed. */
  method CleanupOldEntries(r: Registry, now: int, maxAge: int) returns (r': Registry, deleted: int)
    ensures r' == Fresh(r, now, maxAge)
    ensures deleted == |r.limiters| - |r'.limiters|
  {
    var kept := r.limiters;
    var todo := r.limiters.Keys;
    deleted := 0;
    while todo != {}
      invariant todo <= kept.Keys <= r.limiters.Keys
      invariant forall ip :: ip in kept ==> kept[ip] == r.limiters[ip]
      invariant forall ip :: ip in r.limiters && ip !in todo ==>
                  (ip in kept <==> !Stale(r.limiters[ip], now, maxAge))
      invariant deleted == |r.limiters| - |kept|
      decreases todo
    {
      var ip :| ip in todo;
      if Stale(kept[ip], now, maxAge) {
        assert (kept - {ip}).Keys == kept.Keys - {ip};
        kept := kept - {ip};
        deleted := deleted + 1;
      }
      todo := todo - {ip};
    }
    r' := r.(limiters := kept);
    assert r'.limiters == Fresh(r, now, maxAge).limiters;
  }

  /** The number of tracked clients and the rate and burst given at
      construction. */
  function GetStats(r: Registry): (s: RegistryStats)
    ensures s.totalEntries == |r.limiters| && s.rps == r.rps && s.burst == r.burst
  {
    RegistryStats(|r.limiters|, r.rps, r.burst)
  }

  /** The header values of a request that the address rule reads; an absent
      header reads as the empty string. */
  datatype Request = Request(forwardedFor: string, realIP: string, remoteAddr: string)

  /** The client address of a request: the first comma-separated, trimmed
      element of X-Forwarded-For if it parses as an IP, else X-Real-IP if it
      parses as an IP, else the host part of the connection address, or that
      address verbatim if it does not split into host and port. */
  function ClientIP(req: Request, isIP: string -> bool, splitHost: string -> Option<string>): (ip: string)
    ensures var first := Text.TrimSpace(Text.FirstField(req.forwardedFor));
      && (req.forwardedFor != "" && isIP(first) ==> ip == first)
      && (!(req.forwardedFor != "" && isIP(first)) && req.realIP != "" && isIP(req.realIP) ==> ip == req.realIP)
    ensures var first := Text.TrimSpace(Text.FirstField(req.forwardedFor));
      !(req.forwardedFor != "" && isIP(first)) && !(req.realIP != "" && isIP(req.realIP)) ==>
        && (splitHost(req.remoteAddr).Some? ==> ip == splitHost(req.remoteAddr).value)
        && (splitHost(req.remoteAddr).None? ==> ip == req.remoteAddr)
  {
    var first := Text.TrimSpace(Text.FirstField(req.forwardedFor));
    if req.forwardedFor != "" && isIP(first) then first
    else if req.realIP != "" && isIP(req.realIP) then req.realIP
    else
      match splitHost(req.remoteAddr)
      case Some(host) => host
      case None => req.remoteAddr
  }

  // ----- Properties -----------------------------------------------------------

  /** Looking up clients one after another leaves exactly one entry per
      distinct address, keeps the entries of the others, and never changes the
      rate and burst. */
  lemma {:induction false} LookupsTrackDistinctClients(r: Registry, ips: seq<string>, now: int)
    ensures var r' := LookupAll(r, ips, now);
      && r'.limiters.Keys == r.limiters.Keys + Elements(ips)
      && (forall ip :: ip in r.limiters && ip !in Elements(ips) ==> r'.limiters[ip] == r.limiters[ip])
      && r'.rps == r.rps && r'.burst == r.burst
    decreases |ips|
  {
    if |ips| > 0 {
      var prefix, last := ips[..|ips| - 1], ips[|ips| - 1];
      LookupsTrackDistinctClients(r, prefix, now);
      var p := LookupAll(r, prefix, now);
      assert LookupAll(r, ips, now) == GetLimiter(p, last, now).0;
      assert Elements(ips) == Elements(prefix) + {last};
    }
  }

  /** Three distinct addresses looked up in a new registry give three entries. */
  lemma ThreeDistinctClients(a: string, b: string, c: string, now: int)
    requires a != b && b != c && a != c
    ensures GetStats(LookupAll(NewRegistry(1.0, 2), [a, b, c], now)) == RegistryStats(3, 1.0, 2)
  {
    var r := NewRegistry(1.0, 2);
    LookupsTrackDistinctClients(r, [a, b, c], now);
    AddressesOfThree(a, b, c);
    var m := LookupAll(r, [a, b, c], now).limiters;
    assert m.Keys == {a, b, c};
    assert |m| == |m.Keys|;
  }

  lemma AddressesOfThree(a: string, b: string, c: string)
    requires a != b && b != c && a != c
    ensures Elements([a, b, c]) == {a, b, c} && |{a, b, c}| == 3
  {
    assert [a, b, c][..2] == [a, b];
    assert [a, b][..1] == [a];
    assert [a][..0] == [];
    assert |{a, b}| == 2;
    assert {a, b, c} == {a, b} + {c};
  }

  /** The registry after looking up each address in turn. */
  function LookupAll(r: Registry, ips: seq<string>, now: int): Registry
    decreases |ips|
  {
    if |ips| == 0 then r else GetLimiter(LookupAll(r, ips[..|ips| - 1], now), ips[|ips| - 1], now).0
  }

  /** Clean-up keeps a client seen exactly at the cut-off and removes one seen
      just before it. */
  lemma CleanupBoundary(r: Registry, now: int, maxAge: int, x: string, y: string)
    requires x in r.limiters && r.limiters[x].lastSeen == now - maxAge - 1
    requires y in r.limiters && r.limiters[y].lastSeen == now - maxAge
    ensures x !in Fresh(r, now, maxAge).limiters
    ensures y in Fresh(r, now, maxAge).limiters
  {
  }

  /** Each level of the address rule hides the ones below it: two requests that
      agree on X-Forwarded-For, whose first element parses, get the same
      address whatever their other headers and connections; two requests whose
      first level fails and that agree on a parseable X-Real-IP also get the
      same address. The connection address decides only when both headers
      fail. */
  lemma ClientIPPrecedence(req1: Request, req2: Request, isIP: string -> bool, splitHost: string -> Option<string>)
    ensures var first := Text.TrimSpace(Text.FirstField(req1.forwardedFor));
      req1.forwardedFor == req2.forwardedFor && req1.forwardedFor != "" && isIP(first) ==>
        ClientIP(req1, isIP, splitHost) == ClientIP(req2, isIP, splitHost) == first
    ensures var first1 := Text.TrimSpace(Text.FirstField(req1.forwardedFor));
            var first2 := Text.TrimSpace(Text.FirstField(req2.forwardedFor));
      && !(req1.forwardedFor != "" && isIP(first1)) && !(req2.forwardedFor != "" && isIP(first2))
      && req1.realIP == req2.realIP && req1.realIP != "" && isIP(req1.realIP) ==>
        ClientIP(req1, isIP, splitHost) == ClientIP(req2, isIP, splitHost) == req1.realIP
  {
  }
}
