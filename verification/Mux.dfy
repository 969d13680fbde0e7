/** The endpoint registry (endpoint/mux.go): every call mounts all of its
    endpoints or none. */
module Mux {
  import opened Wrappers

  /** An endpoint with its group's defaults applied; `tag` stands for the rest of it. */
  datatype Endpoint = Endpoint(verb: string, pattern: string, aliases: seq<string>, tag: int)

  datatype Group = Group(pathPrefix: string, endpoints: seq<Endpoint>)

  datatype MountedEndpoint = MountedEndpoint(verb: string, path: string, endpoint: Endpoint, alias: Option<string>)

  datatype MuxError = DuplicateRoute(verb: string, path: string)

  /** `url.JoinPath` and unescaping are the library's. */
  type Joiner = (string, string) -> string

  function MountedPath(join: Joiner, prefix: string, pattern: string): (path: string)
    ensures path != "" && path[0] == '/'
    ensures var joined := join(prefix, pattern);
            if joined != "" && joined[0] == '/' then path == joined else path == "/" + joined
  {
    var path := join(prefix, pattern);
    if path == "" then "/" else if path[0] != '/' then "/" + path else path
  }

  function RouteKey(m: MountedEndpoint): string {
    m.verb + " " + m.path
  }

  function AliasesOf(join: Joiner, prefix: string, e: Endpoint): (r: seq<MountedEndpoint>)
    ensures |r| == |e.aliases|
  {
    seq(|e.aliases|, i requires 0 <= i < |e.aliases| =>
      MountedEndpoint(e.verb, MountedPath(join, prefix, e.aliases[i]), e, Some(e.aliases[i])))
  }

  /** An endpoint, followed by its aliases. */
  function EntriesOf(join: Joiner, prefix: string, e: Endpoint): seq<MountedEndpoint> {
    [MountedEndpoint(e.verb, MountedPath(join, prefix, e.pattern), e, None)] + AliasesOf(join, prefix, e)
  }

  function EndpointsOf(join: Joiner, prefix: string, endpoints: seq<Endpoint>): seq<MountedEndpoint> {
    if endpoints == [] then []
    else
      var n := |endpoints| - 1;
      EndpointsOf(join, prefix, endpoints[..n]) + EntriesOf(join, prefix, endpoints[n])
  }

  /** All endpoints of a list of groups, in group order. */
  function Flattened(join: Joiner, groups: seq<Group>): seq<MountedEndpoint> {
    if groups == [] then []
    else
      var n := |groups| - 1;
      Flattened(join, groups[..n]) + EndpointsOf(join, groups[n].pathPrefix, groups[n].endpoints)
  }

  // ------------------------------------------------- where everything is

  /** How many places the endpoints take: one each, and one for every alias. */
  function Places(endpoints: seq<Endpoint>): nat {
    if endpoints == [] then 0
    else Places(endpoints[..|endpoints| - 1]) + 1 + |endpoints[|endpoints| - 1].aliases|
  }

  function GroupPlaces(groups: seq<Group>): nat {
    if groups == [] then 0 else GroupPlaces(groups[..|groups| - 1]) + Places(groups[|groups| - 1].endpoints)
  }

  /** The endpoint under its own path at `at`, then its aliases in order, each
      under its own path. */
  ghost predicate ListedAt(join: Joiner, prefix: string, e: Endpoint, mounted: seq<MountedEndpoint>, at: nat) {
    && at + |e.aliases| < |mounted|
    && mounted[at] == MountedEndpoint(e.verb, MountedPath(join, prefix, e.pattern), e, None)
    && forall k :: 0 <= k < |e.aliases| ==>
         mounted[at + 1 + k] == MountedEndpoint(e.verb, MountedPath(join, prefix, e.aliases[k]), e, Some(e.aliases[k]))
  }

  /** From `at` on, the endpoints of a group one after the other. */
  ghost predicate ListsGroup(join: Joiner, prefix: string, endpoints: seq<Endpoint>, mounted: seq<MountedEndpoint>, at: nat) {
    forall i :: 0 <= i < |endpoints| ==> ListedAt(join, prefix, endpoints[i], mounted, at + Places(endpoints[..i]))
  }

  /** The endpoints of all groups one after the other, and nothing else. */
  ghost predicate Lists(join: Joiner, groups: seq<Group>, mounted: seq<MountedEndpoint>) {
    && |mounted| == GroupPlaces(groups)
    && forall g :: 0 <= g < |groups| ==>
         ListsGroup(join, groups[g].pathPrefix, groups[g].endpoints, mounted, GroupPlaces(groups[..g]))
  }

  lemma {:induction false} EndpointListed(join: Joiner, prefix: string, endpoints: seq<Endpoint>, i: nat)
    requires i < |endpoints|
    ensures |EndpointsOf(join, prefix, endpoints)| == Places(endpoints)
    ensures ListedAt(join, prefix, endpoints[i], EndpointsOf(join, prefix, endpoints), Places(endpoints[..i]))
  {
    hide ListedAt, EntriesOf;
    var n := |endpoints| - 1;
    var head, last := EndpointsOf(join, prefix, endpoints[..n]), EntriesOf(join, prefix, endpoints[n]);
    EntriesListed(join, prefix, endpoints[n]);
    if n > 0 { EndpointListed(join, prefix, endpoints[..n], if i < n then i else 0); }
    if i < n {
      assert endpoints[..n][..i] == endpoints[..i];
      ListedStays(join, prefix, endpoints[i], head, last, Places(endpoints[..i]), []);
      assert [] + (head + last) == head + last;
    } else {
      ListedStays(join, prefix, endpoints[n], last, [], 0, head);
      assert last + [] == last;
    }
  }

  lemma EndpointsListed(join: Joiner, prefix: string, endpoints: seq<Endpoint>)
    ensures |EndpointsOf(join, prefix, endpoints)| == Places(endpoints)
    ensures ListsGroup(join, prefix, endpoints, EndpointsOf(join, prefix, endpoints), 0)
  {
    if endpoints != [] { EndpointListed(join, prefix, endpoints, 0); }
    hide ListedAt, Places, EndpointsOf;
    forall i | 0 <= i < |endpoints|
      ensures ListedAt(join, prefix, endpoints[i], EndpointsOf(join, prefix, endpoints), 0 + Places(endpoints[..i]))
    {
      EndpointListed(join, prefix, endpoints, i);
    }
  }

  lemma EntriesListed(join: Joiner, prefix: string, e: Endpoint)
    ensures |EntriesOf(join, prefix, e)| == 1 + |e.aliases|
    ensures ListedAt(join, prefix, e, EntriesOf(join, prefix, e), 0)
  {
    hide MountedPath;
  }

  /** An endpoint stays listed whatever is put around it. */
  lemma ListedStays(
    join: Joiner, prefix: string, e: Endpoint, mounted: seq<MountedEndpoint>, after: seq<MountedEndpoint>, at: nat,
    before: seq<MountedEndpoint>)
    requires ListedAt(join, prefix, e, mounted, at)
    ensures ListedAt(join, prefix, e, before + (mounted + after), |before| + at)
  {
    hide MountedPath;
  }

  lemma ListsGroupStays(
    join: Joiner, prefix: string, endpoints: seq<Endpoint>, mounted: seq<MountedEndpoint>, after: seq<MountedEndpoint>,
    at: nat, before: seq<MountedEndpoint>)
    requires ListsGroup(join, prefix, endpoints, mounted, at)
    ensures ListsGroup(join, prefix, endpoints, before + (mounted + after), |before| + at)
  {
    hide ListedAt;
    forall i | 0 <= i < |endpoints|
      ensures ListedAt(join, prefix, endpoints[i], before + (mounted + after), |before| + at + Places(endpoints[..i]))
    {
      ListedStays(join, prefix, endpoints[i], mounted, after, at + Places(endpoints[..i]), before);
    }
  }

  lemma {:induction false} GroupListed(join: Joiner, groups: seq<Group>, g: nat)
    requires g < |groups|
    ensures |Flattened(join, groups)| == GroupPlaces(groups)
    ensures ListsGroup(join, groups[g].pathPrefix, groups[g].endpoints, Flattened(join, groups), GroupPlaces(groups[..g]))
  {
    hide ListsGroup, EndpointsOf, Places;
    var n := |groups| - 1;
    var head, last := Flattened(join, groups[..n]), EndpointsOf(join, groups[n].pathPrefix, groups[n].endpoints);
    EndpointsListed(join, groups[n].pathPrefix, groups[n].endpoints);
    if n > 0 { GroupListed(join, groups[..n], if g < n then g else 0); }
    if g < n {
      assert groups[..n][..g] == groups[..g];
      ListsGroupStays(join, groups[g].pathPrefix, groups[g].endpoints, head, last, GroupPlaces(groups[..g]), []);
      assert [] + (head + last) == head + last;
    } else {
      ListsGroupStays(join, groups[n].pathPrefix, groups[n].endpoints, last, [], 0, head);
      assert last + [] == last;
    }
  }

  /** Every endpoint of every group is listed with its aliases, in order, and
      nothing else is. */
  lemma FlattenedLists(join: Joiner, groups: seq<Group>)
    ensures Lists(join, groups, Flattened(join, groups))
  {
    if groups != [] { GroupListed(join, groups, 0); }
    hide ListsGroup, Flattened, GroupPlaces;
    forall g | 0 <= g < |groups|
      ensures ListsGroup(join, groups[g].pathPrefix, groups[g].endpoints, Flattened(join, groups), GroupPlaces(groups[..g]))
    {
      GroupListed(join, groups, g);
    }
  }

  /** Methods have no blanks, so a route is told by its key: same method and path. */
  lemma KeysTellRoutes(a: MountedEndpoint, b: MountedEndpoint)
    requires ' ' !in a.verb && ' ' !in b.verb
    ensures RouteKey(a) == RouteKey(b) <==> a.verb == b.verb && a.path == b.path
  {
    var x, y := RouteKey(a), RouteKey(b);
    if x == y {
      assert x[|a.verb|] == ' ' && y[|b.verb|] == ' ';
      assert forall i :: 0 <= i < |a.verb| ==> x[i] in a.verb;
      assert forall i :: 0 <= i < |b.verb| ==> y[i] in b.verb;
      assert a.verb == x[..|a.verb|] && b.verb == y[..|b.verb|];
      assert a.path == x[|a.verb| + 1..] && b.path == y[|b.verb| + 1..];
    }
  }

  ghost predicate DistinctKeys(mounted: seq<MountedEndpoint>) {
    forall i, j :: 0 <= i < j < |mounted| ==> RouteKey(mounted[i]) != RouteKey(mounted[j])
  }

  ghost predicate Unused(mounted: seq<MountedEndpoint>, routes: map<string, MountedEndpoint>) {
    UnusedFrom(mounted, 0, routes)
  }

  ghost predicate UnusedFrom(mounted: seq<MountedEndpoint>, start: nat, routes: map<string, MountedEndpoint>) {
    forall i :: start <= i < |mounted| ==> RouteKey(mounted[i]) !in routes
  }

  /** The routes are exactly the mounted endpoints, by key. */
  ghost predicate Registers(routes: map<string, MountedEndpoint>, mounted: seq<MountedEndpoint>) {
    && (forall i :: 0 <= i < |mounted| ==> RouteKey(mounted[i]) in routes && routes[RouteKey(mounted[i])] == mounted[i])
    && (forall k :: k in routes ==> exists i :: 0 <= i < |mounted| && RouteKey(mounted[i]) == k)
  }

  /** The error names the first endpoint whose route is taken already. */
  ghost predicate FirstTaken(batch: seq<MountedEndpoint>, routes: map<string, MountedEndpoint>, error: MuxError) {
    exists i :: 0 <= i < |batch| && error == DuplicateRoute(batch[i].verb, batch[i].path) && TakenAt(batch, i, routes)
  }

  ghost predicate TakenAt(batch: seq<MountedEndpoint>, i: nat, routes: map<string, MountedEndpoint>)
    requires i < |batch|
  {
    && DistinctKeys(batch[..i]) && Unused(batch[..i], routes)
    && (RouteKey(batch[i]) in routes || exists k :: 0 <= k < i && RouteKey(batch[k]) == RouteKey(batch[i]))
  }

  /** The batch can join what is mounted already. */
  ghost predicate Mountable(mounted: seq<MountedEndpoint>, batch: seq<MountedEndpoint>) {
    DistinctKeys(mounted + batch)
  }

  lemma NoEndpoints(join: Joiner, prefix: string)
    ensures EndpointsOf(join, prefix, []) == []
  {
  }

  lemma EndpointsSnoc(join: Joiner, prefix: string, endpoints: seq<Endpoint>, i: nat)
    requires i < |endpoints|
    ensures EndpointsOf(join, prefix, endpoints[..i + 1]) ==
            EndpointsOf(join, prefix, endpoints[..i]) + EntriesOf(join, prefix, endpoints[i])
  {
    hide EntriesOf;
    assert endpoints[..i + 1][..i] == endpoints[..i];
  }

  method MountedEndpointsForGroup(join: Joiner, group: Group) returns (mounted: seq<MountedEndpoint>)
    ensures mounted == EndpointsOf(join, group.pathPrefix, group.endpoints)
    ensures |mounted| == Places(group.endpoints)
    ensures ListsGroup(join, group.pathPrefix, group.endpoints, mounted, 0)
  {
    hide ListsGroup, Places, EndpointsOf, MountedPath;
    EndpointsListed(join, group.pathPrefix, group.endpoints);
    NoEndpoints(join, group.pathPrefix);
    mounted := [];
    for i := 0 to |group.endpoints|
      invariant mounted == EndpointsOf(join, group.pathPrefix, group.endpoints[..i])
    {
      var e := group.endpoints[i];
      EndpointsSnoc(join, group.pathPrefix, group.endpoints, i);
      mounted := mounted + [MountedEndpoint(e.verb, MountedPath(join, group.pathPrefix, e.pattern), e, None)];
      ghost var before := mounted;
      for k := 0 to |e.aliases|
        invariant mounted == before + AliasesOf(join, group.pathPrefix, e)[..k]
      {
        mounted := mounted + [MountedEndpoint(e.verb, MountedPath(join, group.pathPrefix, e.aliases[k]), e, Some(e.aliases[k]))];
      }
      assert mounted == before + AliasesOf(join, group.pathPrefix, e);
    }
    assert group.endpoints[..|group.endpoints|] == group.endpoints;
  }

  class Registry {
    const join: Joiner
    var routes: map<string, MountedEndpoint>
    var mounted: seq<MountedEndpoint>
    var groups: seq<Group>
    /** The patterns handed to the standard library's mux. */
    var served: seq<string>

    ghost predicate Valid()
      reads this
    {
      && mounted == Flattened(join, groups)
      && DistinctKeys(mounted)
      && Registers(routes, mounted)
      && served == Keys(mounted)
    }

    constructor (join: Joiner)
      ensures Valid() && this.join == join && groups == []
    {
      this.join, routes, mounted, groups, served := join, map[], [], [], [];
    }

    /** The endpoints of the groups, if no two share a route with each other or
        with what is mounted. */
    method PrepareGroups(groups: seq<Group>) returns (r: Result<seq<MountedEndpoint>, MuxError>)
      ensures r.Ok? <==> DistinctKeys(Flattened(join, groups)) && Unused(Flattened(join, groups), routes)
      ensures r.Ok? ==> r.value == Flattened(join, groups)
      ensures r.Err? ==> FirstTaken(Flattened(join, groups), routes, r.error)
    {
      hide EndpointsOf, RouteKey, FirstTaken, ListsGroup, Places;
      var prepared: seq<MountedEndpoint> := [];
      var pending: map<string, MountedEndpoint> := map[];
      for g := 0 to |groups|
        invariant prepared == Flattened(join, groups[..g])
        invariant DistinctKeys(prepared) && Unused(prepared, routes) && Registers(pending, prepared)
      {
        assert groups[..g + 1][..g] == groups[..g];
        var batch := MountedEndpointsForGroup(join, groups[g]);
        ghost var before := prepared;
        for i := 0 to |batch|
          invariant prepared == before + batch[..i]
          invariant DistinctKeys(prepared) && Unused(prepared, routes) && Registers(pending, prepared)
        {
          var m := batch[i];
          var key := RouteKey(m);
          if key in routes || key in pending {
            Refused(join, groups, g, i, prepared, routes);
            return Err(DuplicateRoute(m.verb, m.path));
          }
          RegistersMore(pending, prepared, m);
          pending := pending[key := m];
          prepared := prepared + [m];
          assert batch[..i + 1] == batch[..i] + [m];
        }
        assert batch[..|batch|] == batch;
      }
      assert groups[..|groups|] == groups;
      return Ok(prepared);
    }

    method RegisterPrepared(batch: seq<MountedEndpoint>, more: seq<Group>)
      requires DistinctKeys(mounted) && Registers(routes, mounted) && DistinctKeys(batch) && Unused(batch, routes)
      requires served == Keys(mounted)
      modifies this
      ensures mounted == old(mounted) + batch && groups == old(groups) + more
      ensures DistinctKeys(mounted) && Registers(routes, mounted) && served == Keys(mounted)
    {
      hide RouteKey, Keys, DistinctKeys, Registers, UnusedFrom;
      for i := 0 to |batch|
        invariant mounted == old(mounted) + batch[..i] && groups == old(groups)
        invariant DistinctKeys(mounted) && Registers(routes, mounted) && served == Keys(mounted)
        invariant UnusedFrom(batch, i, routes)
      {
        var m := batch[i];
        UnusedNext(batch, i, routes);
        RegistersMore(routes, mounted, m);
        KeysSnoc(mounted, m);
        served := served + [RouteKey(m)];
        routes := routes[RouteKey(m) := m];
        mounted := mounted + [m];
        assert batch[..i + 1] == batch[..i] + [m];
      }
      assert batch[..|batch|] == batch;
      groups := groups + more;
    }

    /** Mounts every endpoint of the groups after those already mounted, in
        group order, or changes nothing; it mounts them exactly when their routes
        are new and distinct. */
    method Mount(more: seq<Group>) returns (err: Option<MuxError>)
      requires Valid()
      modifies this
      ensures Valid()
      ensures err.None? <==> Mountable(old(mounted), Flattened(join, more))
      ensures err.None? ==> groups == old(groups) + more && mounted == old(mounted) + Flattened(join, more)
      ensures Lists(join, groups, mounted) && Registers(routes, mounted)
      ensures err.Some? ==> FirstTaken(Flattened(join, more), old(routes), err.value)
      ensures err.Some? ==>
        groups == old(groups) && mounted == old(mounted) && routes == old(routes) && served == old(served)
    {
      hide RouteKey, Flattened, DistinctKeys, Unused, Registers, FirstTaken, Lists;
      FlattenedLists(join, groups);
      FlattenedLists(join, groups + more);
      MountableMeans(mounted, Flattened(join, more), routes);
      var prepared := PrepareGroups(more);
      if prepared.Err? { return Some(prepared.error); }
      FlattenedConcat(join, groups, more);
      RegisterPrepared(prepared.value, more);
      return None;
    }
  }

  /** One key per mounted endpoint, in order. */
  function Keys(mounted: seq<MountedEndpoint>): (r: seq<string>)
    ensures |r| == |mounted| && forall i :: 0 <= i < |r| ==> r[i] == RouteKey(mounted[i])
  {
    if mounted == [] then []
    else
      var n := |mounted| - 1;
      Keys(mounted[..n]) + [RouteKey(mounted[n])]
  }

  lemma KeysSnoc(mounted: seq<MountedEndpoint>, m: MountedEndpoint)
    ensures Keys(mounted + [m]) == Keys(mounted) + [RouteKey(m)]
  {
    assert (mounted + [m])[..|mounted|] == mounted;
  }

  lemma UnusedNext(batch: seq<MountedEndpoint>, i: nat, routes: map<string, MountedEndpoint>)
    requires i < |batch| && DistinctKeys(batch) && UnusedFrom(batch, i, routes)
    ensures RouteKey(batch[i]) !in routes
    ensures UnusedFrom(batch, i + 1, routes[RouteKey(batch[i]) := batch[i]])
  {
    hide RouteKey;
  }

  lemma RegistersMore(routes: map<string, MountedEndpoint>, mounted: seq<MountedEndpoint>, m: MountedEndpoint)
    requires DistinctKeys(mounted) && Registers(routes, mounted) && RouteKey(m) !in routes
    ensures DistinctKeys(mounted + [m]) && Registers(routes[RouteKey(m) := m], mounted + [m])
  {
    hide RouteKey;
    var more, all := routes[RouteKey(m) := m], mounted + [m];
    forall k | k in more ensures exists i :: 0 <= i < |all| && RouteKey(all[i]) == k {
      if k == RouteKey(m) {
        assert all[|mounted|] == m;
      } else {
        var i :| 0 <= i < |mounted| && RouteKey(mounted[i]) == k;
        assert all[i] == mounted[i];
      }
    }
  }

  /** A key met before rules the whole batch out. */
  lemma Refused(
    join: Joiner, groups: seq<Group>, g: nat, i: nat, prepared: seq<MountedEndpoint>, routes: map<string, MountedEndpoint>)
    requires g < |groups| && DistinctKeys(prepared) && Unused(prepared, routes)
    requires var batch := EndpointsOf(join, groups[g].pathPrefix, groups[g].endpoints);
      i < |batch| && prepared == Flattened(join, groups[..g]) + batch[..i] &&
      (RouteKey(batch[i]) in routes || exists k :: 0 <= k < |prepared| && RouteKey(prepared[k]) == RouteKey(batch[i]))
    ensures !(DistinctKeys(Flattened(join, groups)) && Unused(Flattened(join, groups), routes))
    ensures var m := EndpointsOf(join, groups[g].pathPrefix, groups[g].endpoints)[i];
            FirstTaken(Flattened(join, groups), routes, DuplicateRoute(m.verb, m.path))
  {
    hide RouteKey, EndpointsOf;
    var batch := EndpointsOf(join, groups[g].pathPrefix, groups[g].endpoints);
    assert groups[..g + 1][..g] == groups[..g];
    FlattenedPrefix(join, groups, g + 1);
    var all, here := Flattened(join, groups), Flattened(join, groups[..g + 1]);
    assert here == Flattened(join, groups[..g]) + batch;
    var at := |prepared|;
    assert here[at] == batch[i] && here[..at] == prepared;
    assert all[at] == batch[i] && all[..at] == prepared;
    assert TakenAt(all, at, routes) by {
      if RouteKey(batch[i]) !in routes {
        var k :| 0 <= k < |prepared| && RouteKey(prepared[k]) == RouteKey(batch[i]);
        assert all[k] == prepared[k];
      }
    }
  }

  lemma {:induction false} FlattenedPrefix(join: Joiner, groups: seq<Group>, g: nat)
    requires g <= |groups|
    ensures Flattened(join, groups[..g]) <= Flattened(join, groups)
  {
    hide EndpointsOf;
    if g == |groups| {
      assert groups[..g] == groups;
    } else {
      var n := |groups| - 1;
      assert groups[..n][..g] == groups[..g];
      FlattenedPrefix(join, groups[..n], g);
    }
  }

  lemma {:induction false} FlattenedConcat(join: Joiner, a: seq<Group>, b: seq<Group>)
    ensures Flattened(join, a + b) == Flattened(join, a) + Flattened(join, b)
  {
    hide EndpointsOf;
    if b == [] {
      assert a + b == a;
    } else {
      var n := |b| - 1;
      assert (a + b)[..|a| + n] == a + b[..n];
      FlattenedConcat(join, a, b[..n]);
    }
  }

  lemma MountableMeans(mounted: seq<MountedEndpoint>, batch: seq<MountedEndpoint>, routes: map<string, MountedEndpoint>)
    requires DistinctKeys(mounted) && Registers(routes, mounted)
    ensures Mountable(mounted, batch) <==> DistinctKeys(batch) && Unused(batch, routes)
  {
    hide RouteKey;
    var all := mounted + batch;
    if Mountable(mounted, batch) {
      forall i, j | 0 <= i < j < |batch| ensures RouteKey(batch[i]) != RouteKey(batch[j]) {
        assert all[|mounted| + i] == batch[i] && all[|mounted| + j] == batch[j];
      }
      forall i | 0 <= i < |batch| ensures RouteKey(batch[i]) !in routes {
        forall k | 0 <= k < |mounted| ensures RouteKey(mounted[k]) != RouteKey(batch[i]) {
          assert all[k] == mounted[k] && all[|mounted| + i] == batch[i];
        }
      }
    }
  }

  /** Mounting in one call or in two makes no difference to what can be mounted:
      a batch is mountable exactly when its first part is and its second part is
      after that; and the outcome is the same list. */
  lemma MountInParts(join: Joiner, mounted: seq<MountedEndpoint>, a: seq<Group>, b: seq<Group>)
    ensures Mountable(mounted, Flattened(join, a + b)) <==>
            Mountable(mounted, Flattened(join, a)) && Mountable(mounted + Flattened(join, a), Flattened(join, b))
    ensures mounted + Flattened(join, a + b) == mounted + Flattened(join, a) + Flattened(join, b)
  {
    hide RouteKey;
    FlattenedConcat(join, a, b);
    var first, second := Flattened(join, a), Flattened(join, b);
    assert mounted + (first + second) == (mounted + first) + second;
    if DistinctKeys((mounted + first) + second) {
      forall i, j | 0 <= i < j < |mounted + first|
        ensures RouteKey((mounted + first)[i]) != RouteKey((mounted + first)[j])
      {
        assert ((mounted + first) + second)[i] == (mounted + first)[i] && ((mounted + first) + second)[j] == (mounted + first)[j];
      }
    }
  }
}
