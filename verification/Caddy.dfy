/** Route registration through the proxy's admin API: a host-to-upstream table kept as an
    ordered route list, with a compensating restore when a replacement is refused. The list may
    hold routes that others made; those are never touched. */
module Caddy {
  import opened Results
  import opened Text

  /** The hosts a route answers. The routes made here name one host; others may also take every
      host under a suffix, or every host. */
  datatype Matcher = OneHost(host: string) | Under(suffix: string) | AnyHost

  datatype Route = Route(id: string, hosts: Matcher, upstream: string)

  datatype Server = Server(routes: seq<Route>, skip: Option<seq<string>>)

  // ----- hosts and route ids -----

  function TrimSuffix(s: string, c: char): string {
    if s != "" && s[|s| - 1] == c then s[..|s| - 1] else s
  }

  function Canonical(host: string): string {
    ToLower(TrimSuffix(TrimSpace(host), '.'))
  }

  /** The digest that names routes; it tells canonical hosts apart. */
  type Digest = string -> string

  ghost predicate Injective(digest: Digest) {
    forall a, b :: digest(a) == digest(b) ==> a == b
  }

  function RouteID(digest: Digest, host: string): string {
    "cc-route-" + digest(Canonical(host))
  }

  /** Spaces around a host, one dot at its end and the case of its letters do not count. */
  lemma CanonicalIs(pre: string, core: string, post: string)
    requires forall i | 0 <= i < |pre| :: pre[i] == ' ' || 9 <= pre[i] as int <= 13
    requires forall i | 0 <= i < |post| :: post[i] == ' ' || 9 <= post[i] as int <= 13
    requires core != "" ==> core[0] != ' ' && !(9 <= core[0] as int <= 13)
    requires core != "" ==> core[|core| - 1] != ' ' && !(9 <= core[|core| - 1] as int <= 13)
    ensures var c := Canonical(pre + core + post);
            && |c| == (if core != "" && core[|core| - 1] == '.' then |core| - 1 else |core|)
            && forall i | 0 <= i < |c| ::
                 c[i] as int == if 65 <= core[i] as int <= 90 then core[i] as int + 32 else core[i] as int
  {
    TrimSpaceIs(pre, core, post);
    ToLowerIs(TrimSuffix(core, '.'));
  }

  lemma RouteIDIs(digest: Digest, host: string)
    ensures RouteID(digest, host) == "cc-route-" + digest(Canonical(host))
  {
  }

  lemma RouteIDInjective(digest: Digest, a: string, b: string)
    requires Injective(digest)
    ensures RouteID(digest, a) == RouteID(digest, b) <==> Canonical(a) == Canonical(b)
  {
    var p := "cc-route-";
    assert (p + digest(Canonical(a)))[|p|..] == digest(Canonical(a));
    assert (p + digest(Canonical(b)))[|p|..] == digest(Canonical(b));
  }

  // ----- the route list as a table -----

  predicate EndsWith(s: string, suffix: string) {
    |suffix| <= |s| && s[|s| - |suffix|..] == suffix
  }

  predicate Answers(r: Route, host: string) {
    match r.hosts
    case OneHost(name) => Canonical(name) == Canonical(host)
    case Under(suffix) => EndsWith(Canonical(host), "." + suffix)
    case AnyHost => true
  }

  /** The upstream the proxy picks: the first route that answers the host. */
  function FirstMatch(routes: seq<Route>, host: string): Option<string> {
    if routes == [] then None
    else if Answers(routes[0], host) then Some(routes[0].upstream)
    else FirstMatch(routes[1..], host)
  }

  lemma AnswersIs(r: Route, host: string)
    ensures r.hosts.OneHost? ==> (Answers(r, host) <==> Canonical(r.hosts.host) == Canonical(host))
    ensures r.hosts.Under? ==> (Answers(r, host) <==> exists pre :: Canonical(host) == pre + "." + r.hosts.suffix)
    ensures r.hosts.AnyHost? ==> Answers(r, host)
  {
    if r.hosts.Under? {
      var h, dotted := Canonical(host), "." + r.hosts.suffix;
      if Answers(r, host) {
        assert h == h[..|h| - |dotted|] + "." + r.hosts.suffix;
      }
      forall pre | h == pre + "." + r.hosts.suffix ensures Answers(r, host) {
        assert h == pre + dotted;
        assert h[|pre|..] == dotted;
      }
    }
  }

  /** The first route that answers decides. */
  lemma {:induction false} FirstMatchIs(routes: seq<Route>, host: string)
    ensures forall i | 0 <= i < |routes| && Answers(routes[i], host)
                       && forall j | 0 <= j < i :: !Answers(routes[j], host) ::
              FirstMatch(routes, host) == Some(routes[i].upstream)
    ensures (forall i | 0 <= i < |routes| :: !Answers(routes[i], host)) ==> FirstMatch(routes, host) == None
  {
    if routes != [] {
      var rest := routes[1..];
      FirstMatchIs(rest, host);
      assert forall i | 0 < i < |routes| :: routes[i] == rest[i - 1];
      if !Answers(routes[0], host) {
        forall i | 0 <= i < |routes| && Answers(routes[i], host) && forall j | 0 <= j < i :: !Answers(routes[j], host)
          ensures FirstMatch(routes, host) == Some(routes[i].upstream)
        {
          assert Answers(rest[i - 1], host);
          forall j | 0 <= j < i - 1 ensures !Answers(rest[j], host) {
            assert !Answers(routes[j + 1], host);
          }
        }
      }
    }
  }

  /** A route made here carries its host's id; any other route carries no host's id. */
  predicate Own(digest: Digest, r: Route) {
    r.hosts.OneHost? && r.id == RouteID(digest, r.hosts.host)
  }

  ghost predicate Foreign(digest: Digest, r: Route) {
    forall h :: r.id != RouteID(digest, h)
  }

  ghost predicate ValidRoutes(digest: Digest, routes: seq<Route>) {
    && (forall i | 0 <= i < |routes| :: Own(digest, routes[i]) || Foreign(digest, routes[i]))
    && (forall i, j | 0 <= i < j < |routes| && Own(digest, routes[i]) :: routes[i].id != routes[j].id)
  }

  function Foreigns(digest: Digest, routes: seq<Route>): seq<Route> {
    if routes == [] then []
    else (if Own(digest, routes[0]) then [] else [routes[0]]) + Foreigns(digest, routes[1..])
  }

  /** What a host would get from the routes of others alone. */
  function Shadow(digest: Digest, routes: seq<Route>, host: string): Option<string> {
    FirstMatch(Foreigns(digest, routes), host)
  }

  function FindId(routes: seq<Route>, id: string): Option<Route> {
    if routes == [] then None
    else if routes[0].id == id then Some(routes[0])
    else FindId(routes[1..], id)
  }

  function RemoveId(routes: seq<Route>, id: string): seq<Route> {
    if routes == [] then []
    else if routes[0].id == id then routes[1..]
    else [routes[0]] + RemoveId(routes[1..], id)
  }

  ghost predicate HasId(routes: seq<Route>, id: string) {
    exists i :: 0 <= i < |routes| && routes[i].id == id
  }

  lemma TailHasId(routes: seq<Route>, id: string)
    requires routes != []
    ensures HasId(routes, id) <==> routes[0].id == id || HasId(routes[1..], id)
  {
    var rest := routes[1..];
    assert forall i | 0 <= i < |rest| :: rest[i] == routes[i + 1];
    assert forall i | 0 < i < |routes| :: routes[i] == rest[i - 1];
  }

  lemma ValidTail(digest: Digest, routes: seq<Route>)
    requires ValidRoutes(digest, routes) && routes != []
    ensures ValidRoutes(digest, routes[1..])
    ensures Own(digest, routes[0]) ==> !HasId(routes[1..], routes[0].id)
  {
    var rest := routes[1..];
    assert forall i | 0 <= i < |rest| :: rest[i] == routes[i + 1];
  }

  /** Only the route of that host carries a host's id. */
  lemma IdOfHost(digest: Digest, r: Route, host: string)
    requires Injective(digest) && (Own(digest, r) || Foreign(digest, r)) && r.id == RouteID(digest, host)
    ensures Own(digest, r) && Canonical(r.hosts.host) == Canonical(host)
  {
    RouteIDInjective(digest, r.hosts.host, host);
  }

  lemma OwnAnswers(digest: Digest, r: Route, host: string)
    requires Injective(digest) && Own(digest, r)
    ensures Answers(r, host) <==> r.id == RouteID(digest, host)
  {
    RouteIDInjective(digest, r.hosts.host, host);
  }

  /** The shadow of a list, route by route. */
  lemma ShadowStep(digest: Digest, routes: seq<Route>, h: string)
    requires routes != []
    ensures Shadow(digest, routes, h) ==
            if !Own(digest, routes[0]) && Answers(routes[0], h) then Some(routes[0].upstream)
            else Shadow(digest, routes[1..], h)
  {
    var rest := Foreigns(digest, routes[1..]);
    assert ([routes[0]] + rest)[1..] == rest && [] + rest == rest;
  }

  /** Removing an id leaves the other routes, still with distinct ids. */
  lemma {:induction false} RemoveIds(digest: Digest, routes: seq<Route>, host: string)
    requires Injective(digest) && ValidRoutes(digest, routes)
    ensures var left := RemoveId(routes, RouteID(digest, host));
            && ValidRoutes(digest, left) && !HasId(left, RouteID(digest, host))
            && forall i | 0 <= i < |left| :: left[i] in routes
  {
    var id := RouteID(digest, host);
    if routes != [] {
      ValidTail(digest, routes);
      if routes[0].id == id {
        IdOfHost(digest, routes[0], host);
      } else {
        RemoveIds(digest, routes[1..], host);
        PrependValid(digest, routes, RemoveId(routes[1..], id));
      }
    }
  }

  lemma PrependValid(digest: Digest, routes: seq<Route>, left: seq<Route>)
    requires routes != [] && ValidRoutes(digest, routes) && ValidRoutes(digest, left)
    requires forall i | 0 <= i < |left| :: left[i] in routes[1..]
    ensures ValidRoutes(digest, [routes[0]] + left)
    ensures forall i | 0 <= i < |left| + 1 :: ([routes[0]] + left)[i] in routes
  {
    ValidTail(digest, routes);
    var rest := routes[1..];
    forall i | 0 <= i < |left| ensures Own(digest, routes[0]) ==> left[i].id != routes[0].id {
      assert left[i] in rest;
      var j :| 0 <= j < |rest| && rest[j] == left[i];
    }
  }

  /** Removing a host's route changes no other lookup, and leaves that host to the others. */
  lemma {:induction false} RemoveLookup(digest: Digest, routes: seq<Route>, host: string, h: string)
    requires Injective(digest) && ValidRoutes(digest, routes)
    ensures FirstMatch(RemoveId(routes, RouteID(digest, host)), h) ==
            if Canonical(h) == Canonical(host) then Shadow(digest, routes, h) else FirstMatch(routes, h)
  {
    var id := RouteID(digest, host);
    if routes != [] {
      ValidTail(digest, routes);
      ShadowStep(digest, routes, h);
      if routes[0].id == id {
        IdOfHost(digest, routes[0], host);
        NoMatch(digest, routes[1..], host, h);
      } else {
        RemoveLookup(digest, routes[1..], host, h);
        if Own(digest, routes[0]) {
          OwnAnswers(digest, routes[0], host);
        }
        assert ([routes[0]] + RemoveId(routes[1..], id))[1..] == RemoveId(routes[1..], id);
      }
    }
  }

  /** With the host's id gone from the list only routes of others answer the host. */
  lemma {:induction false} NoMatch(digest: Digest, routes: seq<Route>, host: string, h: string)
    requires Injective(digest) && ValidRoutes(digest, routes) && !HasId(routes, RouteID(digest, host))
    ensures Canonical(h) == Canonical(host) ==> FirstMatch(routes, h) == Shadow(digest, routes, h)
  {
    if routes != [] {
      ValidTail(digest, routes);
      TailHasId(routes, RouteID(digest, host));
      NoMatch(digest, routes[1..], host, h);
      ShadowStep(digest, routes, h);
      if Own(digest, routes[0]) {
        OwnAnswers(digest, routes[0], host);
      }
    }
  }

  lemma {:induction false} RemoveForeigns(digest: Digest, routes: seq<Route>, host: string)
    requires Injective(digest) && ValidRoutes(digest, routes)
    ensures Foreigns(digest, RemoveId(routes, RouteID(digest, host))) == Foreigns(digest, routes)
  {
    var id := RouteID(digest, host);
    if routes != [] {
      ValidTail(digest, routes);
      if routes[0].id == id {
        IdOfHost(digest, routes[0], host);
      } else {
        RemoveForeigns(digest, routes[1..], host);
        assert ([routes[0]] + RemoveId(routes[1..], id))[1..] == RemoveId(routes[1..], id);
      }
    }
  }

  /** Removing a host's route: no other lookup changes, the host is left to the routes of
      others, ids stay distinct. */
  lemma RemoveHost(digest: Digest, routes: seq<Route>, host: string)
    requires Injective(digest) && ValidRoutes(digest, routes)
    ensures var left := RemoveId(routes, RouteID(digest, host));
            && ValidRoutes(digest, left) && !HasId(left, RouteID(digest, host))
            && Foreigns(digest, left) == Foreigns(digest, routes)
            && (forall h :: FirstMatch(left, h) ==
                  if Canonical(h) == Canonical(host) then Shadow(digest, routes, h) else FirstMatch(routes, h))
  {
    RemoveIds(digest, routes, host);
    RemoveForeigns(digest, routes, host);
    forall h ensures FirstMatch(RemoveId(routes, RouteID(digest, host)), h) ==
                     if Canonical(h) == Canonical(host) then Shadow(digest, routes, h) else FirstMatch(routes, h) {
      RemoveLookup(digest, routes, host, h);
    }
  }

  lemma {:induction false} FirstMatchAppend(routes: seq<Route>, r: Route, h: string)
    ensures FirstMatch(routes + [r], h) ==
            if FirstMatch(routes, h).Some? then FirstMatch(routes, h)
            else if Answers(r, h) then Some(r.upstream) else None
  {
    if routes == [] {
      assert [] + [r] == [r];
    } else {
      FirstMatchAppend(routes[1..], r, h);
      assert (routes + [r])[1..] == routes[1..] + [r];
    }
  }

  lemma {:induction false} AppendForeigns(digest: Digest, routes: seq<Route>, r: Route)
    requires Own(digest, r)
    ensures Foreigns(digest, routes + [r]) == Foreigns(digest, routes)
  {
    if routes == [] {
      assert [] + [r] == [r] && [r][1..] == [];
    } else {
      AppendForeigns(digest, routes[1..], r);
      assert (routes + [r])[1..] == routes[1..] + [r];
    }
  }

  lemma AppendValid(digest: Digest, routes: seq<Route>, r: Route)
    requires ValidRoutes(digest, routes) && Own(digest, r) && !HasId(routes, r.id)
    ensures ValidRoutes(digest, routes + [r])
  {
  }

  /** A host's lookup once its own route stands at the end: the routes of others come first. */
  function Behind(shadow: Option<string>, upstream: string): Option<string> {
    if shadow.Some? then shadow else Some(upstream)
  }

  /** Appending a route for a host that has none adds at most that lookup. */
  lemma AppendRoute(digest: Digest, routes: seq<Route>, r: Route)
    requires Injective(digest) && ValidRoutes(digest, routes) && Own(digest, r) && !HasId(routes, r.id)
    ensures ValidRoutes(digest, routes + [r]) && Foreigns(digest, routes + [r]) == Foreigns(digest, routes)
    ensures forall h :: FirstMatch(routes + [r], h) ==
              if Canonical(h) == Canonical(r.hosts.host) then Behind(Shadow(digest, routes, h), r.upstream)
              else FirstMatch(routes, h)
  {
    AppendValid(digest, routes, r);
    AppendForeigns(digest, routes, r);
    forall h ensures FirstMatch(routes + [r], h) ==
                     if Canonical(h) == Canonical(r.hosts.host) then Behind(Shadow(digest, routes, h), r.upstream)
                     else FirstMatch(routes, h) {
      FirstMatchAppend(routes, r, h);
      NoMatch(digest, routes, r.hosts.host, h);
    }
  }

  /** What is found and what is left when the id is first at position k, and when it is not there. */
  lemma {:induction false} RemovedAt(routes: seq<Route>, id: string, k: nat)
    requires k <= |routes| && forall j | 0 <= j < k :: routes[j].id != id
    requires k < |routes| ==> routes[k].id == id
    ensures k < |routes| ==> FindId(routes, id) == Some(routes[k])
    ensures k < |routes| ==> RemoveId(routes, id) == routes[..k] + routes[k + 1..]
    ensures k == |routes| ==> FindId(routes, id) == None && RemoveId(routes, id) == routes
  {
    if k > 0 {
      var rest := routes[1..];
      RemovedAt(rest, id, k - 1);
      assert routes == [routes[0]] + rest;
      if k < |routes| {
        assert routes[..k] == [routes[0]] + rest[..k - 1] && routes[k + 1..] == rest[k..];
      }
    }
  }

  lemma {:induction false} FoundHasId(routes: seq<Route>, id: string)
    ensures FindId(routes, id).Some? <==> HasId(routes, id)
  {
    if routes != [] {
      FoundHasId(routes[1..], id);
      TailHasId(routes, id);
    }
  }

  /** The route stored under a host's id is the host's own. */
  lemma {:induction false} FindHost(digest: Digest, routes: seq<Route>, host: string)
    requires Injective(digest) && ValidRoutes(digest, routes) && FindId(routes, RouteID(digest, host)).Some?
    ensures var r := FindId(routes, RouteID(digest, host)).value;
            Own(digest, r) && r.id == RouteID(digest, host) && Canonical(r.hosts.host) == Canonical(host)
  {
    ValidTail(digest, routes);
    if routes[0].id == RouteID(digest, host) {
      IdOfHost(digest, routes[0], host);
    } else {
      FindHost(digest, routes[1..], host);
    }
  }

  /** That route serves the host unless a route of others does. */
  lemma {:induction false} FindLookup(digest: Digest, routes: seq<Route>, host: string, h: string)
    requires Injective(digest) && ValidRoutes(digest, routes) && FindId(routes, RouteID(digest, host)).Some?
    requires Canonical(h) == Canonical(host) && Shadow(digest, routes, h).None?
    ensures FirstMatch(routes, h) == Some(FindId(routes, RouteID(digest, host)).value.upstream)
  {
    ValidTail(digest, routes);
    ShadowStep(digest, routes, h);
    if Own(digest, routes[0]) {
      OwnAnswers(digest, routes[0], h);
    }
    if routes[0].id == RouteID(digest, host) {
      IdOfHost(digest, routes[0], host);
    } else {
      FindLookup(digest, routes[1..], host, h);
    }
  }

  // ----- the admin client -----

  /** Which requests of one call are refused or lost; such a request has no effect. */
  datatype Faults = Faults(get: bool, create: bool, patch: bool, put: bool, snapshot: bool, remove: bool, add: bool,
                           restore: bool)

  datatype Outcome =
    | Done
    | BadInput
    | Refused      // no route was changed
    | Restored     // the new route was refused and the previous one put back, at the end
    | NotRestored  // the previous route is gone and the new one was refused

  datatype Op = Register(host: string, upstream: string) | Deregister(host: string)

  predicate GoodInput(host: string, upstream: string) {
    host != "" && '\r' !in host && '\n' !in host && '/' !in host && TrimSpace(upstream) != ""
  }

  ghost function RoutesOf(server: Option<Server>): seq<Route> {
    match server
    case None => []
    case Some(s) => s.routes
  }

  /** What one call does to the lookups of its host, by how it ended. shadow is what the routes
      of others alone would answer, was what the host got before. */
  function Becomes(op: Op, outcome: Outcome, shadow: Option<string>, was: Option<string>): Option<string> {
    match op
    case Register(_, upstream) =>
      (match outcome
       case Done => Behind(shadow, upstream)
       case NotRestored => shadow
       case Restored => if shadow.Some? then shadow else was
       case _ => was)
    case Deregister(host) =>
      if outcome.Done? && host != "" then shadow else was
  }

  /** What one call does to the list: routes of others and all other lookups stay, ids stay
      distinct. */
  ghost predicate Effect(digest: Digest, op: Op, outcome: Outcome, before: seq<Route>, after: seq<Route>) {
    && ValidRoutes(digest, after)
    && Foreigns(digest, after) == Foreigns(digest, before)
    && forall h :: FirstMatch(after, h) ==
         if Canonical(h) != Canonical(op.host) then FirstMatch(before, h)
         else Becomes(op, outcome, Shadow(digest, before, h), FirstMatch(before, h))
  }

  /** The server exists, or can be created, and its certificate settings can be written. */
  ghost predicate Preparable(server: Option<Server>, faults: Faults) {
    && !faults.get && (server.None? ==> !faults.create)
    && (!faults.put || (!faults.patch && (server.None? || server.value.skip.Some?)))
  }

  /** The list after a registration that ended in this way. */
  function Upserted(before: seq<Route>, id: string, route: Route, outcome: Outcome): seq<Route> {
    match outcome
    case Done => RemoveId(before, id) + [route]
    case NotRestored => RemoveId(before, id)
    case Restored =>
      var was := FindId(before, id);
      if was.Some? then RemoveId(before, id) + [was.value] else RemoveId(before, id)
    case _ => before
  }

  /** Where the id is first, or the end of the list. */
  lemma {:induction false} Position(routes: seq<Route>, id: string) returns (k: nat)
    ensures k <= |routes| && (forall j | 0 <= j < k :: routes[j].id != id) && (k < |routes| ==> routes[k].id == id)
    ensures FindId(routes, id) == if k < |routes| then Some(routes[k]) else None
    ensures RemoveId(routes, id) == if k < |routes| then routes[..k] + routes[k + 1..] else routes
  {
    k := 0;
    while k < |routes| && routes[k].id != id
      invariant k <= |routes| && forall j | 0 <= j < k :: routes[j].id != id
    {
      k := k + 1;
    }
    RemovedAt(routes, id, k);
  }

  class Client {
    const digest: Digest
    const acmeSkip: seq<string>
    var server: Option<Server>  // the remote configuration

    ghost predicate Valid()
      reads this
    {
      Injective(digest) && ValidRoutes(digest, RoutesOf(server))
    }

    constructor (digest: Digest, acmeSkip: seq<string>, server: Option<Server>)
      requires Injective(digest) && ValidRoutes(digest, RoutesOf(server))
      ensures Valid() && this.server == server && this.digest == digest
    {
      this.digest := digest;
      this.acmeSkip := acmeSkip;
      this.server := server;
    }

    function SkipPatterns(): seq<string> {
      if acmeSkip == [] then ["*.sslip.io"] else acmeSkip
    }

    /** Creates the server when there is none and never touches existing routes. */
    method EnsureServer(faults: Faults) returns (ok: bool)
      requires Valid()
      modifies this
      ensures Valid() && RoutesOf(server) == old(RoutesOf(server))
      ensures ok ==> server.Some? && server.value.skip == Some(SkipPatterns())
      ensures old(server).Some? ==> server.Some?
      ensures ok <==> Preparable(old(server), faults)
      // Creating and the put of the settings suffice; where the settings are there, so does the patch.
      ensures !faults.get && (old(server).None? ==> !faults.create) && !faults.put ==> ok
      ensures (!faults.get && (old(server).None? ==> !faults.create) && !faults.patch
               && (old(server).None? || old(server).value.skip.Some?)) ==>
                ok
      ensures ok ==> !faults.get && (old(server).None? ==> !faults.create) && (!faults.put || !faults.patch)
      ensures ok && faults.put ==> old(server).None? || old(server).value.skip.Some?
      ensures ok ==> server == Some(Server(if old(server).None? then [] else old(server).value.routes,
                                           Some(if acmeSkip == [] then ["*.sslip.io"] else acmeSkip)))
    {
      if faults.get {
        return false;
      }
      if server.None? {
        if faults.create {
          return false;
        }
        server := Some(Server([], Some(SkipPatterns())));
      }
      // The patch only works on an existing automatic_https object; the put creates it.
      if !faults.patch && server.value.skip.Some? {
        server := Some(server.value.(skip := Some(SkipPatterns())));
        return true;
      }
      if faults.put {
        return false;
      }
      server := Some(server.value.(skip := Some(SkipPatterns())));
      return true;
    }

    /** A completed call changes exactly the host's lookup; a refused one changes none. A restored
        route has moved to the end of the list, behind any route of others for its host. */
    method Register(host: string, upstream: string, faults: Faults) returns (outcome: Outcome, ghost at: nat)
      requires Valid()
      modifies this
      ensures Valid()
      ensures Effect(digest, Op.Register(host, upstream), outcome, old(RoutesOf(server)), RoutesOf(server))
      ensures outcome == BadInput <==> !GoodInput(host, upstream)
      ensures outcome == Done <==> GoodInput(host, upstream) && Preparable(old(server), faults) &&
                                   !faults.snapshot && !faults.remove && !faults.add
      ensures outcome == Restored || outcome == NotRestored <==>
                GoodInput(host, upstream) && Preparable(old(server), faults) &&
                !faults.snapshot && !faults.remove && faults.add && HasId(old(RoutesOf(server)), RouteID(digest, host))
      ensures outcome == NotRestored ==> faults.restore
      ensures outcome == Restored ==> !faults.restore
      // How it ends: the input first, then the server, the requests in their order.
      ensures var accepted := host != "" && '\r' !in host && '\n' !in host && '/' !in host
                              && exists i | 0 <= i < |upstream| ::
                                 upstream[i] != ' ' && !(9 <= upstream[i] as int <= 13);
              var ready := !faults.get && (old(server).None? ==> !faults.create)
                           && (!faults.put || (!faults.patch && (old(server).None? || old(server).value.skip.Some?)));
              var before := if old(server).None? then [] else old(server).value.routes;
              outcome == if !accepted then BadInput
                         else if !ready || faults.snapshot || faults.remove then Refused
                         else if !faults.add then Done
                         else if forall i | 0 <= i < |before| :: before[i].id != "cc-route-" + digest(Canonical(host))
                         then Refused
                         else if faults.restore then NotRestored
                         else Restored
      // Whatever the list and the server, an accepted host and upstream are registered when no
      // request fails.
      ensures host != "" && '\r' !in host && '\n' !in host && '/' !in host
              && (exists i | 0 <= i < |upstream| :: upstream[i] != ' ' && !(9 <= upstream[i] as int <= 13))
              && !faults.get && !faults.create && !faults.patch && !faults.put && !faults.snapshot
              && !faults.remove && !faults.add ==>
                outcome == Done
      // The list afterwards: the other routes in their order, and at the end the new route, or the
      // one put back. The host's route was at at, or nowhere.
      ensures var id := "cc-route-" + digest(Canonical(host));
              var before := if old(server).None? then [] else old(server).value.routes;
              && at <= |before| && (forall j | 0 <= j < at :: before[j].id != id)
              && (at < |before| ==> before[at].id == id)
              && var left := if at < |before| then before[..at] + before[at + 1..] else before;
                 (if server.None? then [] else server.value.routes)
                 == match outcome
                    case Done => left + [Route(id, OneHost(host), upstream)]
                    case NotRestored => left
                    case Restored => if at < |before| then left + [before[at]] else left
                    case _ => before
    {
      BlankIff(upstream);
      RouteIDIs(digest, host);
      at := Position(RoutesOf(server), RouteID(digest, host));
      outcome := Upsert(host, upstream, faults);
    }

    /** The requests of that call. */
    method Upsert(host: string, upstream: string, faults: Faults) returns (outcome: Outcome)
      requires Valid()
      modifies this
      ensures Valid()
      ensures Effect(digest, Op.Register(host, upstream), outcome, old(RoutesOf(server)), RoutesOf(server))
      ensures outcome == BadInput <==> !GoodInput(host, upstream)
      ensures outcome == Done <==> GoodInput(host, upstream) && Preparable(old(server), faults) &&
                                   !faults.snapshot && !faults.remove && !faults.add
      ensures outcome == Restored || outcome == NotRestored <==>
                GoodInput(host, upstream) && Preparable(old(server), faults) &&
                !faults.snapshot && !faults.remove && faults.add && HasId(old(RoutesOf(server)), RouteID(digest, host))
      ensures outcome == NotRestored ==> faults.restore
      ensures outcome == Restored ==> !faults.restore
      ensures var id := RouteID(digest, host);
              RoutesOf(server) == Upserted(old(RoutesOf(server)), id, Route(id, OneHost(host), upstream), outcome)
    {
      var id := RouteID(digest, host);
      ghost var before := RoutesOf(server);
      if host == "" || '\r' in host || '\n' in host || '/' in host || TrimSpace(upstream) == "" {
        return BadInput;
      }
      var ready := EnsureServer(faults);
      if !ready || faults.snapshot {
        return Refused;
      }
      var oldRoute := FindId(server.value.routes, id);
      FoundHasId(before, id);
      if faults.remove {
        return Refused;
      }
      var left := RemoveId(server.value.routes, id);
      server := Some(server.value.(routes := left));
      if faults.add {
        if oldRoute.None? {
          NothingRemoved(before, id);
          return Refused;
        }
        RemovedRoute(digest, before, host, upstream);
        if faults.restore {
          return NotRestored;
        }
        RestoredRoute(digest, before, host, upstream);
        server := Some(server.value.(routes := left + [oldRoute.value]));
        return Restored;
      }
      var route := Route(id, OneHost(host), upstream);
      ReplacedRoute(digest, before, host, upstream);
      server := Some(server.value.(routes := left + [route]));
      return Done;
    }

    /** Removes exactly the host's route; a missing route is no error. */
    method Deregister(host: string, fails: bool) returns (outcome: Outcome, ghost at: nat)
      requires Valid()
      modifies this
      ensures Valid()
      ensures Effect(digest, Op.Deregister(host), outcome, old(RoutesOf(server)), RoutesOf(server))
      ensures outcome == if host != "" && fails then Refused else Done
      ensures var id := "cc-route-" + digest(Canonical(host));
              var before := if old(server).None? then [] else old(server).value.routes;
              && at <= |before| && (forall j | 0 <= j < at :: before[j].id != id)
              && (at < |before| ==> before[at].id == id)
              && (if server.None? then [] else server.value.routes)
                 == if host != "" && !fails && at < |before| then before[..at] + before[at + 1..] else before
    {
      RouteIDIs(digest, host);
      at := Position(RoutesOf(server), RouteID(digest, host));
      outcome := Remove(host, fails);
    }

    /** The request of that call. */
    method Remove(host: string, fails: bool) returns (outcome: Outcome)
      requires Valid()
      modifies this
      ensures Valid()
      ensures Effect(digest, Op.Deregister(host), outcome, old(RoutesOf(server)), RoutesOf(server))
      ensures outcome == if host != "" && fails then Refused else Done
      ensures RoutesOf(server) == if host != "" && !fails then RemoveId(old(RoutesOf(server)), RouteID(digest, host))
                                  else old(RoutesOf(server))
    {
      if host == "" {
        return Done;
      }
      if fails {
        return Refused;
      }
      RemovedRoute(digest, RoutesOf(server), host, "");
      if server.Some? {
        server := Some(server.value.(routes := RemoveId(server.value.routes, RouteID(digest, host))));
      }
      return Done;
    }
  }

  lemma {:induction false} NothingRemoved(routes: seq<Route>, id: string)
    requires !HasId(routes, id)
    ensures RemoveId(routes, id) == routes
  {
    if routes != [] {
      TailHasId(routes, id);
      NothingRemoved(routes[1..], id);
    }
  }

  /** What replacing a host's route amounts to. */
  lemma ReplacedRoute(digest: Digest, before: seq<Route>, host: string, upstream: string)
    requires Injective(digest) && ValidRoutes(digest, before)
    ensures var id := RouteID(digest, host);
            Effect(digest, Op.Register(host, upstream), Done, before,
                   RemoveId(before, id) + [Route(id, OneHost(host), upstream)])
  {
    RemoveHost(digest, before, host);
    AppendRoute(digest, RemoveId(before, RouteID(digest, host)), Route(RouteID(digest, host), OneHost(host), upstream));
  }

  /** What removing a host's route amounts to. */
  lemma RemovedRoute(digest: Digest, before: seq<Route>, host: string, upstream: string)
    requires Injective(digest) && ValidRoutes(digest, before)
    ensures var after := RemoveId(before, RouteID(digest, host));
            Effect(digest, Op.Register(host, upstream), NotRestored, before, after)
            && (host != "" ==> Effect(digest, Op.Deregister(host), Done, before, after))
  {
    RemoveHost(digest, before, host);
  }

  /** What putting the removed route back at the end amounts to. */
  lemma RestoredRoute(digest: Digest, before: seq<Route>, host: string, upstream: string)
    requires Injective(digest) && ValidRoutes(digest, before) && FindId(before, RouteID(digest, host)).Some?
    ensures var id := RouteID(digest, host);
            Effect(digest, Op.Register(host, upstream), Restored, before,
                   RemoveId(before, id) + [FindId(before, id).value])
  {
    var id := RouteID(digest, host);
    var left, r := RemoveId(before, id), FindId(before, id).value;
    FindHost(digest, before, host);
    RemoveHost(digest, before, host);
    AppendRoute(digest, left, r);
    forall h | Canonical(h) == Canonical(host) && Shadow(digest, before, h).None?
      ensures FirstMatch(before, h) == Some(r.upstream)
    {
      FindLookup(digest, before, host, h);
    }
  }

  /** Exactly when a call that ended with the previous route restored left every lookup as it
      was: the host was not served by that route ahead of a route of others. */
  lemma RestoreUnchangedIff(digest: Digest, host: string, upstream: string, before: seq<Route>, after: seq<Route>)
    requires Effect(digest, Op.Register(host, upstream), Restored, before, after)
    ensures (forall h :: FirstMatch(after, h) == FirstMatch(before, h)) <==>
            forall h | Canonical(h) == Canonical(host) ::
              Shadow(digest, before, h).None? || Shadow(digest, before, h) == FirstMatch(before, h)
  {
    if forall h :: FirstMatch(after, h) == FirstMatch(before, h) {
      forall h | Canonical(h) == Canonical(host)
        ensures Shadow(digest, before, h).None? || Shadow(digest, before, h) == FirstMatch(before, h)
      {
        assert FirstMatch(after, h) == FirstMatch(before, h);
      }
    }
  }

  /** Exactly when a completed registration serves its host: no route of others answers it, or
      the first that does has the same upstream. */
  lemma DoneServesIff(digest: Digest, host: string, upstream: string, before: seq<Route>, after: seq<Route>)
    requires Effect(digest, Op.Register(host, upstream), Done, before, after)
    ensures FirstMatch(after, host) == Some(upstream) <==>
            Shadow(digest, before, host).None? || Shadow(digest, before, host) == Some(upstream)
  {
  }

  // ----- runs -----

  /** What the host of a call maps to afterwards. */
  function Put(t: map<string, string>, key: string, value: Option<string>): map<string, string> {
    if value.Some? then t[key := value.value] else t - {key}
  }

  function Get(t: map<string, string>, key: string): Option<string> {
    if key in t then Some(t[key]) else None
  }

  /** The table the calls describe, over the one they found and beside the routes of others. */
  ghost function Table(foreigns: seq<Route>, t0: map<string, string>, ops: seq<Op>,
                       outcomes: seq<Outcome>): map<string, string>
    requires |ops| == |outcomes|
  {
    if ops == [] then t0
    else
      var n := |ops| - 1;
      var t := Table(foreigns, t0, ops[..n], outcomes[..n]);
      var key := Canonical(ops[n].host);
      Put(t, key, Becomes(ops[n], outcomes[n], FirstMatch(foreigns, ops[n].host), Get(t, key)))
  }

  /** First-match lookup is the table for every host the calls or the routes made here name; the
      remaining hosts are answered by routes of others. */
  ghost predicate Refines(foreigns: seq<Route>, routes: seq<Route>, table: map<string, string>) {
    forall h ::
      FirstMatch(routes, h) == if Canonical(h) in table then Some(table[Canonical(h)]) else FirstMatch(foreigns, h)
  }

  /** Lookups see hosts up to their canonical form. */
  lemma {:induction false} SameLookup(routes: seq<Route>, g: string, h: string)
    requires Canonical(g) == Canonical(h)
    ensures FirstMatch(routes, g) == FirstMatch(routes, h)
  {
    if routes != [] {
      SameLookup(routes[1..], g, h);
    }
  }

  /** Every list there may be when the first call comes has such a table. */
  lemma {:induction false} InitialTable(digest: Digest, routes: seq<Route>, n: nat) returns (t: map<string, string>)
    requires Injective(digest) && ValidRoutes(digest, routes) && n <= |routes|
    ensures forall h | Canonical(h) in t :: FirstMatch(routes, h) == Some(t[Canonical(h)])
    ensures forall i | 0 <= i < n && Own(digest, routes[i]) :: Canonical(routes[i].hosts.host) in t
    ensures n == |routes| ==> Refines(Foreigns(digest, routes), routes, t)
  {
    if n == 0 {
      t := map[];
    } else {
      t := InitialTable(digest, routes, n - 1);
      if Own(digest, routes[n - 1]) {
        var host := routes[n - 1].hosts.host;
        AnsweredSome(routes, n - 1, host);
        forall h | Canonical(h) == Canonical(host) ensures FirstMatch(routes, h) == FirstMatch(routes, host) {
          SameLookup(routes, h, host);
        }
        t := t[Canonical(host) := FirstMatch(routes, host).value];
      }
    }
    if n == |routes| {
      forall h | Canonical(h) !in t ensures FirstMatch(routes, h) == Shadow(digest, routes, h) {
        forall i | 0 <= i < |routes| ensures routes[i].id != RouteID(digest, h) {
          if routes[i].id == RouteID(digest, h) {
            IdOfHost(digest, routes[i], h);
          }
        }
        NoMatch(digest, routes, h, h);
      }
    }
  }

  lemma {:induction false} AnsweredSome(routes: seq<Route>, i: nat, h: string)
    requires i < |routes| && Answers(routes[i], h)
    ensures FirstMatch(routes, h).Some?
  {
    if i > 0 {
      AnsweredSome(routes[1..], i - 1, h);
    }
  }

  /** Over every run of calls, whatever list they find and whatever is refused: ids stay
      distinct, routes of others stay as they are, and first-match lookup is the table. */
  lemma {:induction false} RunRefinesTable(digest: Digest, t0: map<string, string>, states: seq<seq<Route>>,
                                           ops: seq<Op>, outcomes: seq<Outcome>)
    requires |states| == |ops| + 1 && |outcomes| == |ops| && ValidRoutes(digest, states[0])
    requires Refines(Foreigns(digest, states[0]), states[0], t0)
    requires forall i | 0 <= i < |ops| :: Effect(digest, ops[i], outcomes[i], states[i], states[i + 1])
    ensures ValidRoutes(digest, states[|ops|])
    ensures Foreigns(digest, states[|ops|]) == Foreigns(digest, states[0])
    ensures var foreigns := Foreigns(digest, states[0]);
            Refines(foreigns, states[|ops|], Table(foreigns, t0, ops, outcomes))
  {
    if ops != [] {
      var n := |ops| - 1;
      RunRefinesTable(digest, t0, states[..n + 1], ops[..n], outcomes[..n]);
      EffectOnTable(digest, ops[n], outcomes[n], states[n], states[n + 1],
                    Table(Foreigns(digest, states[0]), t0, ops[..n], outcomes[..n]));
    }
  }

  lemma EffectOnTable(digest: Digest, op: Op, outcome: Outcome, before: seq<Route>, after: seq<Route>,
                      t: map<string, string>)
    requires Effect(digest, op, outcome, before, after) && Refines(Foreigns(digest, before), before, t)
    ensures var key := Canonical(op.host);
            var shadow := Shadow(digest, before, op.host);
            Refines(Foreigns(digest, before), after, Put(t, key, Becomes(op, outcome, shadow, Get(t, key))))
  {
    var key := Canonical(op.host);
    var t' := Put(t, key, Becomes(op, outcome, Shadow(digest, before, op.host), Get(t, key)));
    forall h ensures FirstMatch(after, h) ==
                     if Canonical(h) in t' then Some(t'[Canonical(h)]) else Shadow(digest, before, h) {
      if Canonical(h) == key {
        SameLookup(Foreigns(digest, before), h, op.host);
      }
    }
  }

  // ----- routes of others get in the way -----

  lemma NamelessIsForeign(digest: Digest, hosts: Matcher, upstream: string)
    ensures Foreign(digest, Route("", hosts, upstream)) && !Own(digest, Route("", hosts, upstream))
  {
    forall h ensures RouteID(digest, h) != "" {
      assert |RouteID(digest, h)| >= |"cc-route-"|;
    }
  }

  /** A catch-all route of others ahead of everything: the registration completes and its host is
      still answered by the catch-all. */
  lemma ShadowedRegistration(digest: Digest, host: string, upstream: string, other: string)
    requires Injective(digest) && other != upstream
    ensures var before := [Route("", AnyHost, other)];
            var after := before + [Route(RouteID(digest, host), OneHost(host), upstream)];
            && ValidRoutes(digest, before) && Effect(digest, Op.Register(host, upstream), Done, before, after)
            && FirstMatch(after, host) == Some(other)
  {
    NamelessIsForeign(digest, AnyHost, other);
    var before := [Route("", AnyHost, other)];
    assert before[1..] == [] && before[0].id != RouteID(digest, host);
    assert RemoveId(before, RouteID(digest, host)) == before;
    ReplacedRoute(digest, before, host, upstream);
  }

  /** The host's route ahead of a catch-all of others: the new route is refused, the old one is
      put back behind the catch-all, and the host has lost it. */
  lemma RestoredBehind(digest: Digest, host: string, upstream: string, serving: string, other: string)
    requires Injective(digest) && other != serving
    ensures var own, catchAll := Route(RouteID(digest, host), OneHost(host), serving), Route("", AnyHost, other);
            && ValidRoutes(digest, [own, catchAll])
            && Effect(digest, Op.Register(host, upstream), Restored, [own, catchAll], [catchAll, own])
            && FirstMatch([own, catchAll], host) == Some(serving) && FirstMatch([catchAll, own], host) == Some(other)
  {
    var own, catchAll := Route(RouteID(digest, host), OneHost(host), serving), Route("", AnyHost, other);
    NamelessIsForeign(digest, AnyHost, other);
    var before := [own, catchAll];
    assert RemoveId(before, own.id) == [catchAll];
    assert [catchAll] + [own] == [catchAll, own];
    RestoredRoute(digest, before, host, upstream);
  }
}
