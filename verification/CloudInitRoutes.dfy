/**
 * The routes of the cloud-init network configuration:
 * getSubnetsForNthInterface in pkg/libvirttools/cloudinit.go.
 */
module CloudInitRoutes {
  import opened Common
  import opened StaticRoutes

  datatype IPNet = IPNet(ip: IP, mask: Bytes)

  /** net.IPNet.Contains, a call into the standard library. */
  type Contains = (IPNet, IP) -> bool

  /** One address of the CNI result. */
  datatype Address = Address(iface: int, net: IPNet, gateway: IP)

  datatype Used = Used(route: Route, gw: IP)

  datatype Subnet = Static(net: IPNet, routes: seq<Used>) | Dhcp

  /** IP.IsUnspecified: 0.0.0.0 or ::, and not nil. */
  predicate Unspecified(ip: IP) {
    To4(ip) == ZERO4 || (|ip| == 16 && forall i :: 0 <= i < 16 ==> ip[i] == 0)
  }

  /** The gateway through which an address reaches a route, if it does. */
  function Via(route: Route, a: Address, contains: Contains): Option<IP> {
    if route.gw != [] && contains(a.net, route.gw) then Some(route.gw)
    else if route.gw == [] && !Unspecified(a.gateway) then Some(a.gateway)
    else None
  }

  predicate Default(route: Route) {
    MaskSize(route.mask) == 0
  }

  /** The two tests on which the assignment of the routes rests. */
  datatype Rules = Rules(via: (Route, Address) -> Option<IP>, isDefault: Route -> bool)

  function CloudInitRules(contains: Contains): Rules {
    Rules((route: Route, a: Address) => Via(route, a, contains), (route: Route) => Default(route))
  }

  // ----- What one address takes -------------------------------------------

  /** The routes taken, in the order of the walk, those left in their own order, and the default flag. */
  datatype Walked = Walked(used: seq<Used>, left: seq<Route>, gotDefault: bool)

  predicate Takes(route: Route, a: Address, gotDefault: bool, rules: Rules) {
    rules.via(route, a).Some? && !(rules.isDefault(route) && gotDefault)
  }

  /** The walk from the last route to the first. */
  function Walk(routes: seq<Route>, gotDefault: bool, a: Address, rules: Rules): Walked
    decreases |routes|
  {
    if routes == [] then Walked([], [], gotDefault)
    else
      var last, front := routes[|routes| - 1], routes[..|routes| - 1];
      if Takes(last, a, gotDefault, rules) then
        var w := Walk(front, gotDefault || rules.isDefault(last), a, rules);
        Walked([Used(last, rules.via(last, a).value)] + w.used, w.left, w.gotDefault)
      else
        var w := Walk(front, gotDefault, a, rules);
        Walked(w.used, w.left + [last], w.gotDefault)
  }

  /** The routes of a list of used routes. */
  function RoutesOf(used: seq<Used>): (rs: seq<Route>)
    ensures |rs| == |used|
    ensures forall i :: 0 <= i < |used| ==> rs[i] == used[i].route
  {
    seq(|used|, i requires 0 <= i < |used| => used[i].route)
  }

  lemma RoutesOfConcat(a: seq<Used>, b: seq<Used>)
    ensures RoutesOf(a + b) == RoutesOf(a) + RoutesOf(b)
  {
  }

  function Defaults(routes: seq<Route>, rules: Rules): nat {
    if routes == [] then 0 else (if rules.isDefault(routes[0]) then 1 else 0) + Defaults(routes[1..], rules)
  }

  lemma {:induction false} DefaultsConcat(a: seq<Route>, b: seq<Route>, rules: Rules)
    ensures Defaults(a + b, rules) == Defaults(a, rules) + Defaults(b, rules)
  {
    if a == [] {
      assert a + b == b;
    } else {
      DefaultsConcat(a[1..], b, rules);
      assert (a + b)[1..] == a[1..] + b;
    }
  }

  /** Nothing is lost and nothing is used twice. */
  lemma {:induction false} WalkConserves(routes: seq<Route>, gotDefault: bool, a: Address, rules: Rules)
    ensures var w := Walk(routes, gotDefault, a, rules);
            multiset(RoutesOf(w.used)) + multiset(w.left) == multiset(routes)
    decreases |routes|
  {
    if routes != [] {
      var last, front := routes[|routes| - 1], routes[..|routes| - 1];
      assert routes == front + [last];
      if Takes(last, a, gotDefault, rules) {
        WalkConserves(front, gotDefault || rules.isDefault(last), a, rules);
        var w := Walk(front, gotDefault || rules.isDefault(last), a, rules);
        RoutesOfConcat([Used(last, rules.via(last, a).value)], w.used);
        assert RoutesOf([Used(last, rules.via(last, a).value)]) == [last];
      } else {
        WalkConserves(front, gotDefault, a, rules);
      }
    }
  }

  /** At most one default route is used, and the flag says whether one was. */
  lemma {:induction false} WalkDefaults(routes: seq<Route>, gotDefault: bool, a: Address, rules: Rules)
    ensures var w := Walk(routes, gotDefault, a, rules);
            Defaults(RoutesOf(w.used), rules) + (if gotDefault then 1 else 0) == (if w.gotDefault then 1 else 0)
    decreases |routes|
  {
    if routes != [] {
      var last, front := routes[|routes| - 1], routes[..|routes| - 1];
      if Takes(last, a, gotDefault, rules) {
        WalkDefaults(front, gotDefault || rules.isDefault(last), a, rules);
        var w := Walk(front, gotDefault || rules.isDefault(last), a, rules);
        RoutesOfConcat([Used(last, rules.via(last, a).value)], w.used);
        assert RoutesOf([Used(last, rules.via(last, a).value)]) == [last];
        DefaultsConcat([last], RoutesOf(w.used), rules);
        assert Defaults([last], rules) == if rules.isDefault(last) then 1 else 0;
      } else {
        WalkDefaults(front, gotDefault, a, rules);
      }
    }
  }

  /** What is left was not reachable, or was one default route too many. */
  lemma {:induction false} WalkLeaves(routes: seq<Route>, gotDefault: bool, a: Address, rules: Rules)
    ensures var w := Walk(routes, gotDefault, a, rules);
            forall r :: r in w.left ==> r in routes && (rules.via(r, a).None? || (rules.isDefault(r) && w.gotDefault))
    decreases |routes|
  {
    if routes != [] {
      var last, front := routes[|routes| - 1], routes[..|routes| - 1];
      var got := if Takes(last, a, gotDefault, rules) then gotDefault || rules.isDefault(last) else gotDefault;
      WalkLeaves(front, got, a, rules);
      WalkDefaults(front, got, a, rules);
    }
  }

  /** Every used route goes through the gateway by which the address reaches it. */
  lemma {:induction false} WalkUses(routes: seq<Route>, gotDefault: bool, a: Address, rules: Rules)
    ensures forall u :: u in Walk(routes, gotDefault, a, rules).used ==> rules.via(u.route, a) == Some(u.gw)
    decreases |routes|
  {
    if routes != [] {
      var last, front := routes[|routes| - 1], routes[..|routes| - 1];
      var got := if Takes(last, a, gotDefault, rules) then gotDefault || rules.isDefault(last) else gotDefault;
      WalkUses(front, got, a, rules);
    }
  }

  /** The last default route of the list that the address reaches. */
  function LastReachable(routes: seq<Route>, a: Address, rules: Rules): Option<Route>
    decreases |routes|
  {
    if routes == [] then None
    else
      var last := routes[|routes| - 1];
      if rules.isDefault(last) && rules.via(last, a).Some? then Some(last)
      else LastReachable(routes[..|routes| - 1], a, rules)
  }

  lemma {:induction false} LastReachableIsLast(routes: seq<Route>, a: Address, rules: Rules)
    ensures LastReachable(routes, a, rules).None? ==>
              forall i :: 0 <= i < |routes| && rules.isDefault(routes[i]) ==> rules.via(routes[i], a).None?
    ensures LastReachable(routes, a, rules).Some? ==>
              exists i :: 0 <= i < |routes| && LastReachable(routes, a, rules) == Some(routes[i])
                          && rules.isDefault(routes[i]) && rules.via(routes[i], a).Some?
                          && forall j :: i < j < |routes| && rules.isDefault(routes[j])
                              ==> rules.via(routes[j], a).None?
    decreases |routes|
  {
    if routes != [] {
      var last := routes[|routes| - 1];
      if !(rules.isDefault(last) && rules.via(last, a).Some?) {
        LastReachableIsLast(routes[..|routes| - 1], a, rules);
      }
    }
  }

  /** The default routes of a list, in order. */
  function DefaultsIn(routes: seq<Route>, rules: Rules): seq<Route> {
    if routes == [] then []
    else
      var front := DefaultsIn(routes[..|routes| - 1], rules);
      if rules.isDefault(routes[|routes| - 1]) then front + [routes[|routes| - 1]] else front
  }

  /** Which default route an address reaches last depends on the default routes alone. */
  lemma {:induction false} ReachesAmongDefaults(routes: seq<Route>, a: Address, rules: Rules)
    ensures LastReachable(routes, a, rules) == LastReachable(DefaultsIn(routes, rules), a, rules)
    decreases |routes|
  {
    if routes != [] {
      var front := routes[..|routes| - 1];
      ReachesAmongDefaults(front, a, rules);
      var defaults := DefaultsIn(routes, rules);
      if rules.isDefault(routes[|routes| - 1]) {
        assert defaults[..|defaults| - 1] == DefaultsIn(front, rules);
      }
    }
  }

  /** The default routes among the used ones. */
  function DefaultUses(used: seq<Used>, rules: Rules): seq<Used> {
    if used == [] then []
    else (if rules.isDefault(used[0].route) then [used[0]] else []) + DefaultUses(used[1..], rules)
  }

  lemma {:induction false} DefaultUsesConcat(a: seq<Used>, b: seq<Used>, rules: Rules)
    ensures DefaultUses(a + b, rules) == DefaultUses(a, rules) + DefaultUses(b, rules)
  {
    if a == [] {
      assert a + b == b;
    } else {
      DefaultUsesConcat(a[1..], b, rules);
      assert (a + b)[1..] == a[1..] + b;
      var first := if rules.isDefault(a[0].route) then [a[0]] else [];
      var x, y := DefaultUses(a[1..], rules), DefaultUses(b, rules);
      assert first + (x + y) == first + x + y;
    }
  }

  /** The default route that an address uses: the last one it reaches, unless there was one before. */
  function DefaultUse(routes: seq<Route>, gotDefault: bool, a: Address, rules: Rules): (u: Option<Used>)
    ensures u.Some? ==> !gotDefault && rules.isDefault(u.value.route)
  {
    LastReachableIsLast(routes, a, rules);
    var r := LastReachable(routes, a, rules);
    if gotDefault || r.None? then None else Some(Used(r.value, rules.via(r.value, a).value))
  }

  function Listed(u: Option<Used>): seq<Used> {
    if u.Some? then [u.value] else []
  }

  lemma {:induction false} WalkDefaultUse(routes: seq<Route>, gotDefault: bool, a: Address, rules: Rules)
    ensures var w, u := Walk(routes, gotDefault, a, rules), DefaultUse(routes, gotDefault, a, rules);
            && DefaultUses(w.used, rules) == Listed(u)
            && w.gotDefault == (gotDefault || u.Some?)
            && (u.None? ==> DefaultsIn(w.left, rules) == DefaultsIn(routes, rules))
    decreases |routes|
  {
    if routes != [] {
      var last, front := routes[|routes| - 1], routes[..|routes| - 1];
      if Takes(last, a, gotDefault, rules) {
        var w := Walk(front, gotDefault || rules.isDefault(last), a, rules);
        WalkDefaultUse(front, gotDefault || rules.isDefault(last), a, rules);
        assert ([Used(last, rules.via(last, a).value)] + w.used)[1..] == w.used;
      } else {
        var w := Walk(front, gotDefault, a, rules);
        WalkDefaultUse(front, gotDefault, a, rules);
        assert (w.left + [last])[..|w.left|] == w.left;
      }
    }
  }

  // ----- All the addresses of an interface --------------------------------

  datatype Assigned = Assigned(subnets: seq<Subnet>, left: seq<Route>, gotDefault: bool)

  /** The addresses of the interface, each taking from what the ones before it left. */
  function Assign(addrs: seq<Address>, n: int, routes: seq<Route>, rules: Rules): Assigned {
    if addrs == [] then Assigned([], routes, false)
    else
      var last := addrs[|addrs| - 1];
      var before := Assign(addrs[..|addrs| - 1], n, routes, rules);
      if last.iface != n then before
      else
        var w := Walk(before.left, before.gotDefault, last, rules);
        Assigned(before.subnets + [Static(last.net, w.used)], w.left, w.gotDefault)
  }

  function AllUsed(subnets: seq<Subnet>): seq<Used> {
    if subnets == [] then []
    else
      var last := subnets[|subnets| - 1];
      AllUsed(subnets[..|subnets| - 1]) + (if last.Static? then last.routes else [])
  }

  lemma AllUsedSnoc(subnets: seq<Subnet>, net: IPNet, used: seq<Used>)
    ensures AllUsed(subnets + [Static(net, used)]) == AllUsed(subnets) + used
  {
    assert (subnets + [Static(net, used)])[..|subnets|] == subnets;
  }

  /**
   * The routes given to the subnets and the leftover routes are together the
   * routes of the CNI result, and at most one default route is given.
   */
  lemma {:induction false} AssignConserves(addrs: seq<Address>, n: int, routes: seq<Route>, rules: Rules)
    ensures var r := Assign(addrs, n, routes, rules);
            && multiset(RoutesOf(AllUsed(r.subnets))) + multiset(r.left) == multiset(routes)
            && Defaults(RoutesOf(AllUsed(r.subnets)), rules) == if r.gotDefault then 1 else 0
  {
    if addrs != [] {
      var last := addrs[|addrs| - 1];
      var before := Assign(addrs[..|addrs| - 1], n, routes, rules);
      AssignConserves(addrs[..|addrs| - 1], n, routes, rules);
      if last.iface == n {
        var w := Walk(before.left, before.gotDefault, last, rules);
        WalkConserves(before.left, before.gotDefault, last, rules);
        WalkDefaults(before.left, before.gotDefault, last, rules);
        AllUsedSnoc(before.subnets, last.net, w.used);
        RoutesOfConcat(AllUsed(before.subnets), w.used);
        DefaultsConcat(RoutesOf(AllUsed(before.subnets)), RoutesOf(w.used), rules);
      }
    }
  }

  /** A route left over is reached by no address of the interface, or is one default route too many. */
  lemma {:induction false} AssignLeaves(addrs: seq<Address>, n: int, routes: seq<Route>, rules: Rules, r: Route)
    requires r in Assign(addrs, n, routes, rules).left
    ensures forall i :: 0 <= i < |addrs| && addrs[i].iface == n ==>
              rules.via(r, addrs[i]).None? || (rules.isDefault(r) && Assign(addrs, n, routes, rules).gotDefault)
  {
    if addrs != [] {
      var last := addrs[|addrs| - 1];
      var before := Assign(addrs[..|addrs| - 1], n, routes, rules);
      if last.iface == n {
        WalkLeaves(before.left, before.gotDefault, last, rules);
        WalkDefaults(before.left, before.gotDefault, last, rules);
        assert r in before.left;
      }
      AssignLeaves(addrs[..|addrs| - 1], n, routes, rules, r);
    }
  }

  /** The default route of an interface: that of its first address that reaches one. */
  function ChosenDefault(addrs: seq<Address>, n: int, routes: seq<Route>, rules: Rules): Option<Used> {
    if addrs == [] then None
    else
      var last := addrs[|addrs| - 1];
      var before := ChosenDefault(addrs[..|addrs| - 1], n, routes, rules);
      if last.iface != n || before.Some? then before else DefaultUse(routes, false, last, rules)
  }

  /**
   * The one default route that the subnets of an interface use is, for the
   * first address that reaches any default route of the CNI result, the last
   * such route of the list, although the warning speaks of the first one.
   */
  lemma {:induction false} AssignUsesDefault(addrs: seq<Address>, n: int, routes: seq<Route>, rules: Rules)
    ensures var r, u := Assign(addrs, n, routes, rules), ChosenDefault(addrs, n, routes, rules);
            && DefaultUses(AllUsed(r.subnets), rules) == Listed(u)
            && r.gotDefault == u.Some?
            && (u.None? ==> DefaultsIn(r.left, rules) == DefaultsIn(routes, rules))
  {
    if addrs != [] {
      var last, front := addrs[|addrs| - 1], addrs[..|addrs| - 1];
      AssignUsesDefault(front, n, routes, rules);
      if last.iface == n {
        var before := Assign(front, n, routes, rules);
        var w := Walk(before.left, before.gotDefault, last, rules);
        WalkDefaultUse(before.left, before.gotDefault, last, rules);
        AllUsedSnoc(before.subnets, last.net, w.used);
        DefaultUsesConcat(AllUsed(before.subnets), w.used, rules);
        ReachesAmongDefaults(before.left, last, rules);
        ReachesAmongDefaults(routes, last, rules);
      }
    }
  }

  function OfInterface(addrs: seq<Address>, n: int): seq<Address> {
    if addrs == [] then []
    else
      var front := OfInterface(addrs[..|addrs| - 1], n);
      if addrs[|addrs| - 1].iface == n then front + [addrs[|addrs| - 1]] else front
  }

  /** The subnet is that of the address, and its routes go through the address. */
  ghost predicate Serves(s: Subnet, a: Address, rules: Rules) {
    s.Static? && s.net == a.net && forall u :: u in s.routes ==> rules.via(u.route, a) == Some(u.gw)
  }

  /** There is a subnet for each address of the interface, in order. */
  lemma {:induction false} AssignServes(addrs: seq<Address>, n: int, routes: seq<Route>, rules: Rules)
    ensures var own, subnets := OfInterface(addrs, n), Assign(addrs, n, routes, rules).subnets;
            |subnets| == |own| && forall k :: 0 <= k < |own| ==> Serves(subnets[k], own[k], rules)
  {
    if addrs != [] {
      AssignServes(addrs[..|addrs| - 1], n, routes, rules);
      var last := addrs[|addrs| - 1];
      if last.iface == n {
        var before := Assign(addrs[..|addrs| - 1], n, routes, rules);
        WalkUses(before.left, before.gotDefault, last, rules);
        assert Serves(Static(last.net, Walk(before.left, before.gotDefault, last, rules).used), last, rules);
      }
    }
  }

  /**
   * The gateway of every route that a subnet is given: the route's own, which
   * is in the subnet, or that of the address for a route without one.
   */
  lemma UsedGateways(addrs: seq<Address>, n: int, routes: seq<Route>, contains: Contains, k: nat, u: Used)
    requires k < |Assign(addrs, n, routes, CloudInitRules(contains)).subnets|
    requires Assign(addrs, n, routes, CloudInitRules(contains)).subnets[k].Static?
    requires u in Assign(addrs, n, routes, CloudInitRules(contains)).subnets[k].routes
    ensures k < |OfInterface(addrs, n)|
    ensures var a := OfInterface(addrs, n)[k];
            if u.route.gw != [] then u.gw == u.route.gw && contains(a.net, u.gw)
            else u.gw == a.gateway && u.gw != ZERO4 && u.gw != Repeat(0, 16)
  {
    AssignServes(addrs, n, routes, CloudInitRules(contains));
    assert Serves(Assign(addrs, n, routes, CloudInitRules(contains)).subnets[k], OfInterface(addrs, n)[k],
                  CloudInitRules(contains));
  }

  /**
   * A route that no subnet is given: every address of the interface misses its
   * gateway, or it has an empty mask and another such route is used.
   */
  lemma UnusedRoutes(addrs: seq<Address>, n: int, routes: seq<Route>, contains: Contains, r: Route, i: nat)
    requires r in Assign(addrs, n, routes, CloudInitRules(contains)).left
    requires i < |addrs| && addrs[i].iface == n
    ensures (if r.gw != [] then !contains(addrs[i].net, r.gw) else Unspecified(addrs[i].gateway))
            || (MaskSize(r.mask) == 0 && Assign(addrs, n, routes, CloudInitRules(contains)).gotDefault)
  {
    AssignLeaves(addrs, n, routes, CloudInitRules(contains), r);
  }

  // ----- The loops --------------------------------------------------------

  /** append(routes[:k], routes[k+1:]...): the tail moves down by one, in place. */
  method DeleteAt(a: array<Route>, len: nat, k: nat)
    requires k < len <= a.Length
    modifies a
    ensures a[..len - 1] == old(a[..k] + a[k + 1..len])
  {
    for i := k to len - 1
      invariant forall j :: 0 <= j < k ==> a[j] == old(a[j])
      invariant forall j :: k <= j < i ==> a[j] == old(a[j + 1])
      invariant forall j :: i <= j < len ==> a[j] == old(a[j])
    {
      a[i] := a[i + 1];
    }
  }

  /** The walk over the whole list, with the first k routes still to be visited. */
  ghost predicate Midway(whole: seq<Route>, start: bool, a: Address, rules: Rules,
                         k: nat, used: seq<Used>, kept: seq<Route>, got: bool)
  {
    k <= |whole| &&
    var w := Walk(whole[..k], got, a, rules);
    Walk(whole, start, a, rules) == Walked(used + w.used, w.left + kept, w.gotDefault)
  }

  lemma MidwayStarts(whole: seq<Route>, start: bool, a: Address, rules: Rules)
    ensures Midway(whole, start, a, rules, |whole|, [], [], start)
  {
    assert whole[..|whole|] == whole;
    var w := Walk(whole, start, a, rules);
    assert [] + w.used == w.used && w.left + [] == w.left;
  }

  lemma MidwaySteps(whole: seq<Route>, start: bool, a: Address, rules: Rules,
                    k: nat, used: seq<Used>, kept: seq<Route>, got: bool)
    requires Midway(whole, start, a, rules, k, used, kept, got) && k > 0
    ensures var route := whole[k - 1];
            if Takes(route, a, got, rules)
            then
              Midway(whole, start, a, rules, k - 1,
                     used + [Used(route, rules.via(route, a).value)], kept, got || rules.isDefault(route))
            else Midway(whole, start, a, rules, k - 1, used, [route] + kept, got)
  {
    var route := whole[k - 1];
    assert whole[..k][..k - 1] == whole[..k - 1];
    if Takes(route, a, got, rules) {
      var w := Walk(whole[..k - 1], got || rules.isDefault(route), a, rules);
      var taken := [Used(route, rules.via(route, a).value)];
      assert used + (taken + w.used) == used + taken + w.used;
    } else {
      var w := Walk(whole[..k - 1], got, a, rules);
      assert w.left + [route] + kept == w.left + ([route] + kept);
    }
  }

  lemma SplitAt(list: seq<Route>, whole: seq<Route>, k: nat, kept: seq<Route>)
    requires k < |whole| && list == whole[..k + 1] + kept
    ensures list[k] == whole[k]
    ensures list[..k] == whole[..k] && list[k + 1..] == kept
    ensures list == whole[..k] + ([whole[k]] + kept)
  {
  }

  /** One turn of the inner loop: the route is taken out of the list, or the list stays. */
  method Visit(a: array<Route>, len: nat, at: nat, gotDefault: bool, addr: Address, rules: Rules)
    returns (taken: Option<Used>)
    requires at < len <= a.Length
    modifies a
    ensures taken.Some? <==> Takes(old(a[at]), addr, gotDefault, rules)
    ensures taken.Some? ==> taken.value == Used(old(a[at]), rules.via(old(a[at]), addr).value)
    ensures taken.Some? ==> a[..len - 1] == old(a[..len])[..at] + old(a[..len])[at + 1..]
    ensures taken.None? ==> a[..len] == old(a[..len])
  {
    var route := a[at];
    var gw := rules.via(route, addr);
    if gw.None? || (rules.isDefault(route) && gotDefault) { return None; }
    DeleteAt(a, len, at);
    return Some(Used(route, gw.value));
  }

  /** The inner loop: what one address takes out of the list. */
  method TakeRoutes(a: array<Route>, len: nat, gotDefault: bool, addr: Address, rules: Rules)
    returns (used: seq<Used>, len': nat, gotDefault': bool)
    requires len <= a.Length
    modifies a
    ensures len' <= len
    ensures Walked(used, a[..len'], gotDefault') == Walk(old(a[..len]), gotDefault, addr, rules)
  {
    ghost var whole := a[..len];
    ghost var kept: seq<Route> := [];
    used, len', gotDefault' := [], len, gotDefault;
    MidwayStarts(whole, gotDefault, addr, rules);
    for i := 0 to len
      invariant len' == len - i + |kept| <= len
      invariant a[..len'] == whole[..len - i] + kept
      invariant Midway(whole, gotDefault, addr, rules, len - i, used, kept, gotDefault')
    {
      var at := len - 1 - i;
      SplitAt(a[..len'], whole, at, kept);
      MidwaySteps(whole, gotDefault, addr, rules, at + 1, used, kept, gotDefault');
      var taken := Visit(a, len', at, gotDefault', addr, rules);
      if taken.Some? {
        gotDefault' := gotDefault' || rules.isDefault(taken.value.route);
        used := used + [taken.value];
        len' := len' - 1;
      } else {
        kept := [whole[at]] + kept;
      }
    }
    assert used + [] == used && [] + kept == kept;
  }

  /**
   * getSubnetsForNthInterface: the list of the CNI result is copied first and
   * never changed; an interface without an address is left to DHCP.
   */
  method GetSubnetsForNthInterface(n: int, addrs: seq<Address>, cniRoutes: array<Route>, contains: Contains)
    returns (subnets: seq<Subnet>)
    ensures var r := Assign(addrs, n, cniRoutes[..], CloudInitRules(contains));
            subnets == if r.subnets == [] then [Dhcp] else r.subnets
  {
    var rules := CloudInitRules(contains);
    var routes := new Route[cniRoutes.Length](i requires 0 <= i < cniRoutes.Length reads cniRoutes => cniRoutes[i]);
    var len: nat := routes.Length;
    assert routes[..len] == cniRoutes[..];
    var gotDefault := false;
    subnets := [];
    for k := 0 to |addrs|
      invariant len <= routes.Length
      invariant Assigned(subnets, routes[..len], gotDefault) == Assign(addrs[..k], n, cniRoutes[..], rules)
    {
      assert addrs[..k + 1][..k] == addrs[..k];
      if addrs[k].iface == n {
        var used: seq<Used>;
        used, len, gotDefault := TakeRoutes(routes, len, gotDefault, addrs[k], rules);
        subnets := subnets + [Static(addrs[k].net, used)];
      }
    }
    assert addrs[..|addrs|] == addrs;
    if subnets == [] {
      subnets := [Dhcp];
    }
  }
}
