/** The route-table step of a health check (`changeDefaultRoute` in
    watch.go): steer traffic for the health-check destination through the
    router under test, changing the first matching route or adding a /32. */
module Routes {
  import opened Wrappers
  import opened Net

  /** A destination network; the address is None for a nil `net.IP`. */
  datatype IPNet = IPNet(ip: Option<IP>, prefixLen: nat)

  /** The fields of a netlink route that the step reads or writes. */
  datatype Route = Route(linkIndex: int, dst: Option<IPNet>, gw: Option<IP>)

  /** What netlink does on this tick: the interface index (None when the
      interface lookup fails), whether listing routes succeeds, and whether
      the change or add that follows succeeds. */
  datatype Netlink = Netlink(link: Option<int>, listOk: bool, writeOk: bool)

  datatype RouteError = LinkNotFound | RouteListFailed | RouteChangeFailed | RouteAddFailed

  /** A route toward `dest`: it has a destination network whose address
      prints as `dest`. */
  predicate ToDestination(c: Codec, r: Route, dest: string)
  {
    r.dst.Some? && Text(c, r.dst.value.ip) == dest
  }

  /** The position of the first route toward `dest`, if there is one. */
  function FirstMatch(c: Codec, routes: seq<Route>, dest: string): (o: Option<nat>)
    ensures o.Some? ==> o.value < |routes| && ToDestination(c, routes[o.value], dest)
    ensures o.Some? ==> forall j :: 0 <= j < o.value ==> !ToDestination(c, routes[j], dest)
    ensures o.None? ==> forall j :: 0 <= j < |routes| ==> !ToDestination(c, routes[j], dest)
    decreases |routes|
  {
    if |routes| == 0 then None
    else if ToDestination(c, routes[0], dest) then Some(0)
    else
      assert forall j :: 1 <= j < |routes| ==> routes[j] == routes[1..][j - 1];
      match FirstMatch(c, routes[1..], dest)
      case None => None
      case Some(i) => Some(i + 1)
  }

  /** The /32 host route that is added when no route toward `dest` exists. */
  function HostRoute(c: Codec, dest: string, gw: Option<IP>, linkIndex: int): Route
  {
    Route(linkIndex, Some(IPNet(c.parse(dest), 32)), gw)
  }

  /** The route table after the step, when every netlink call succeeds. */
  function Upsert(c: Codec, routes: seq<Route>, dest: string, gw: Option<IP>, linkIndex: int): seq<Route>
  {
    match FirstMatch(c, routes, dest)
    case Some(i) => routes[i := routes[i].(gw := gw)]
    case None => routes + [HostRoute(c, dest, gw, linkIndex)]
  }

  /** When a route toward `dest` exists, only the first such route changes,
      and only its gateway. */
  lemma UpsertChangesFirstMatch(c: Codec, routes: seq<Route>, dest: string, gw: Option<IP>, linkIndex: int, i: nat)
    requires i < |routes| && ToDestination(c, routes[i], dest)
    requires forall j :: 0 <= j < i ==> !ToDestination(c, routes[j], dest)
    ensures var r := Upsert(c, routes, dest, gw, linkIndex);
      && |r| == |routes|
      && r[i] == routes[i].(gw := gw)
      && forall j :: 0 <= j < |routes| && j != i ==> r[j] == routes[j]
  {
  }

  /** When no route toward `dest` exists, exactly one route is added: a /32 to
      the parsed destination through `gw` on the interface. */
  lemma UpsertAddsHostRoute(c: Codec, routes: seq<Route>, dest: string, gw: Option<IP>, linkIndex: int)
    requires forall j :: 0 <= j < |routes| ==> !ToDestination(c, routes[j], dest)
    ensures var r := Upsert(c, routes, dest, gw, linkIndex);
      && |r| == |routes| + 1
      && r[..|routes|] == routes
      && r[|routes|] == Route(linkIndex, Some(IPNet(c.parse(dest), 32)), gw)
  {
  }

  /** A destination written in the codec's own canonical form. */
  ghost predicate Canonical(c: Codec, dest: string)
  {
    exists ip :: c.parse(dest) == Some(ip) && c.format(ip) == dest
  }

  /** After the step the first route toward a canonical destination goes
      through `gw`: probe traffic now leaves through the router under test. */
  lemma UpsertSteersDestination(c: Codec, routes: seq<Route>, dest: string, gw: Option<IP>, linkIndex: int)
    requires Canonical(c, dest)
    ensures var r := Upsert(c, routes, dest, gw, linkIndex);
      var o := FirstMatch(c, r, dest);
      o.Some? && r[o.value].gw == gw
  {
    var r := Upsert(c, routes, dest, gw, linkIndex);
    match FirstMatch(c, routes, dest)
    case Some(i) =>
      UpsertChangesFirstMatch(c, routes, dest, gw, linkIndex, i);
      assert ToDestination(c, r[i], dest);
    case None =>
      UpsertAddsHostRoute(c, routes, dest, gw, linkIndex);
      var ip :| c.parse(dest) == Some(ip) && c.format(ip) == dest;
      assert ToDestination(c, r[|routes|], dest);
  }

  /** Repeated health checks do not grow the table: once a route toward a
      canonical destination exists, a later step with any gateway only
      changes it. */
  lemma {:induction false} UpsertSettles(c: Codec, routes: seq<Route>, dest: string, gw1: Option<IP>, gw2: Option<IP>, linkIndex: int)
    requires Canonical(c, dest)
    ensures var r1 := Upsert(c, routes, dest, gw1, linkIndex);
      |Upsert(c, r1, dest, gw2, linkIndex)| == |r1|
  {
    var r1 := Upsert(c, routes, dest, gw1, linkIndex);
    UpsertSteersDestination(c, routes, dest, gw1, linkIndex);
  }

  /** The whole of `changeDefaultRoute`: the interface lookup, the route
      listing, then a change of the first matching route or an add; the
      gateway is the router address printed and parsed again. */
  function ChangeDefaultRoute(c: Codec, routes: seq<Route>, dest: string, router: IP, nl: Netlink): (r: Result<seq<Route>, RouteError>)
    ensures r.Success? <==> nl.link.Some? && nl.listOk && nl.writeOk
    ensures nl.link.None? ==> r == Failure(LinkNotFound)
    ensures nl.link.Some? && !nl.listOk ==> r == Failure(RouteListFailed)
    ensures r.Success? ==> r.value == Upsert(c, routes, dest, c.parse(c.format(router)), nl.link.value)
    // for an address that came from parsing, the gateway is the router itself
    ensures r.Success? && ReadsBack(c) && Parsed(c, router) ==>
      r.value == Upsert(c, routes, dest, Some(router), nl.link.value)
    ensures r.Failure? && nl.link.Some? && nl.listOk ==>
      r.error == (if FirstMatch(c, routes, dest).Some? then RouteChangeFailed else RouteAddFailed)
  {
    match nl.link
    case None => Failure(LinkNotFound)
    case Some(linkIndex) =>
      if !nl.listOk then Failure(RouteListFailed)
      else
        var gw := c.parse(c.format(router));
        match FirstMatch(c, routes, dest)
        case Some(i) =>
          if nl.writeOk then Success(routes[i := routes[i].(gw := gw)]) else Failure(RouteChangeFailed)
        case None =>
          if nl.writeOk then Success(routes + [HostRoute(c, dest, gw, linkIndex)]) else Failure(RouteAddFailed)
  }
}
