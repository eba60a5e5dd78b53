/**
 * `ForwardTable` of the routers (lab5/myrouter.py, lab4/myrouter.py): an
 * insertion-ordered list of (network, next hop, interface) entries and the
 * longest-prefix-match lookup of section 5.2.4.3 of RFC 1812.
 */
module ForwardTable {
  import opened Wrappers
  import opened Packets

  /** A `ForwardItem(ip, next_hop, intf)`; a next hop of 0.0.0.0 means "directly connected". */
  datatype Route = Route(net: Network, nextHop: Ip, intf: Interface)

  /** The exception Python's `max` raises on an empty sequence. */
  datatype MaxError = ValueError

  function Plen(r: Route): int {
    r.net.prefixLen
  }

  /** `filter(lambda item: ip in item.ip, table)`. */
  function Matching(routes: seq<Route>, ip: Ip): seq<Route> {
    if routes == [] then []
    else (if Contains(routes[0].net, ip) then [routes[0]] else []) + Matching(routes[1..], ip)
  }

  /** The scan inside Python's `max(..., key=prefixlen)`: the current best is replaced only by a strictly longer prefix. */
  function MaxScan(best: Route, rest: seq<Route>): Route
    decreases |rest|
  {
    if rest == [] then best
    else MaxScan(if Plen(rest[0]) > Plen(best) then rest[0] else best, rest[1..])
  }

  /** `max(items, key=prefixlen, default=None)`. */
  function MaxOrDefault(items: seq<Route>): Option<Route> {
    if items == [] then None else Some(MaxScan(items[0], items[1..]))
  }

  /** `max(items, key=prefixlen)` without a default: raises ValueError on an empty sequence. */
  function MaxOrRaise(items: seq<Route>): Result<Route, MaxError> {
    if items == [] then Err(ValueError) else Ok(MaxScan(items[0], items[1..]))
  }

  /** lab5 `ForwardTable.search`. */
  function Search(routes: seq<Route>, ip: Ip): Option<Route> {
    MaxOrDefault(Matching(routes, ip))
  }

  /** lab4 `ForwardTable.search`: the ValueError of an empty match list is caught and gives None. */
  function SearchCatching(routes: seq<Route>, ip: Ip): (r: Option<Route>)
    ensures r == Search(routes, ip)
  {
    match MaxOrRaise(Matching(routes, ip))
    case Err(ValueError) => None
    case Ok(route) => Some(route)
  }

  /**
   * Entry `i` is the longest-prefix match for `ip`: it contains `ip`, no
   * containing entry has a longer prefix, and every containing entry before it
   * has a strictly shorter one (ties go to the earliest-added entry).
   */
  ghost predicate IsLongestMatch(routes: seq<Route>, ip: Ip, i: int) {
    && 0 <= i < |routes|
    && Contains(routes[i].net, ip)
    && (forall j :: 0 <= j < |routes| && Contains(routes[j].net, ip) ==> Plen(routes[j]) <= Plen(routes[i]))
    && (forall j :: 0 <= j < i && Contains(routes[j].net, ip) ==> Plen(routes[j]) < Plen(routes[i]))
  }

  lemma {:induction false} MatchingSnoc(routes: seq<Route>, x: Route, ip: Ip)
    ensures Matching(routes + [x], ip) == Matching(routes, ip) + (if Contains(x.net, ip) then [x] else [])
  {
    if routes == [] {
      assert routes + [x] == [x];
    } else {
      assert (routes + [x])[1..] == routes[1..] + [x];
      MatchingSnoc(routes[1..], x, ip);
    }
  }

  lemma {:induction false} MaxScanSnoc(best: Route, rest: seq<Route>, x: Route)
    ensures MaxScan(best, rest + [x]) == (var m := MaxScan(best, rest); if Plen(x) > Plen(m) then x else m)
    decreases |rest|
  {
    if rest == [] {
      assert [x][1..] == [];
    } else {
      assert (rest + [x])[1..] == rest[1..] + [x];
      MaxScanSnoc(if Plen(rest[0]) > Plen(best) then rest[0] else best, rest[1..], x);
    }
  }

  /** Appending an entry to the table changes the lookup only when the new entry matches with a strictly longer prefix. */
  lemma SearchSnoc(routes: seq<Route>, x: Route, ip: Ip)
    ensures Search(routes + [x], ip) ==
      (var s := Search(routes, ip);
       if Contains(x.net, ip) && (s.None? || Plen(x) > Plen(s.value)) then Some(x) else s)
  {
    var m := Matching(routes, ip);
    MatchingSnoc(routes, x, ip);
    if Contains(x.net, ip) {
      if m != [] {
        MaxScanSnoc(m[0], m[1..], x);
        assert (m + [x])[1..] == m[1..] + [x];
      } else {
        assert m + [x] == [x] && [x][1..] == [];
      }
    } else {
      assert m + [] == m;
    }
  }

  /**
   * `search` returns the longest-prefix match (the earliest-added one among
   * equal prefixes), and None exactly when no entry contains the address.
   */
  lemma {:induction false} SearchIsLongestMatch(routes: seq<Route>, ip: Ip)
    ensures Search(routes, ip).None? <==> forall j :: 0 <= j < |routes| ==> !Contains(routes[j].net, ip)
    ensures Search(routes, ip).Some? ==> exists i :: IsLongestMatch(routes, ip, i) && routes[i] == Search(routes, ip).value
  {
    if routes != [] {
      var n := |routes| - 1;
      var pre, x := routes[..n], routes[n];
      assert routes == pre + [x];
      SearchIsLongestMatch(pre, ip);
      SearchSnoc(pre, x, ip);
      var s := Search(pre, ip);
      if s.Some? {
        var i :| IsLongestMatch(pre, ip, i) && pre[i] == s.value;
        if Contains(x.net, ip) && Plen(x) > Plen(s.value) {
          assert IsLongestMatch(routes, ip, n);
        } else {
          assert IsLongestMatch(routes, ip, i);
        }
      } else if Contains(x.net, ip) {
        assert IsLongestMatch(routes, ip, n);
      }
    }
  }

  /** The converse: whichever entry is the longest-prefix match is the one `search` returns. */
  lemma LongestMatchIsSearched(routes: seq<Route>, ip: Ip, i: int)
    requires IsLongestMatch(routes, ip, i)
    ensures Search(routes, ip) == Some(routes[i])
  {
    SearchIsLongestMatch(routes, ip);
    var i' :| IsLongestMatch(routes, ip, i') && routes[i'] == Search(routes, ip).value;
    assert !(i < i') && !(i' < i);
  }

  /** The connected route of an interface: its own network, next hop 0.0.0.0. */
  function ConnectedRoute(intf: Interface): Route {
    Route(intf.network, ZeroIp, intf)
  }

  /**
   * `build_forward_table`: one connected route per interface, in interface
   * order, then the static routes of the configuration file in file order
   * (each `ForwardTable.add` appends).
   */
  method BuildForwardTable(interfaces: seq<Interface>, staticRoutes: seq<Route>) returns (table: seq<Route>)
    ensures |table| == |interfaces| + |staticRoutes|
    ensures forall i :: 0 <= i < |interfaces| ==> table[i] == ConnectedRoute(interfaces[i])
    ensures table[|interfaces|..] == staticRoutes
  {
    table := [];
    for i := 0 to |interfaces|
      invariant |table| == i
      invariant forall j :: 0 <= j < i ==> table[j] == ConnectedRoute(interfaces[j])
    {
      table := table + [ConnectedRoute(interfaces[i])];
    }
    for i := 0 to |staticRoutes|
      invariant |table| == |interfaces| + i
      invariant forall j :: 0 <= j < |interfaces| ==> table[j] == ConnectedRoute(interfaces[j])
      invariant table[|interfaces|..] == staticRoutes[..i]
    {
      table := table + [staticRoutes[i]];
    }
  }

  /**
   * Every address on an interface's own network has a route in a table built
   * by `build_forward_table`, with a prefix at least as long as that network's.
   */
  lemma ConnectedNetworksRoutable(interfaces: seq<Interface>, staticRoutes: seq<Route>, table: seq<Route>, k: int, ip: Ip)
    requires |table| == |interfaces| + |staticRoutes|
    requires forall i :: 0 <= i < |interfaces| ==> table[i] == ConnectedRoute(interfaces[i])
    requires 0 <= k < |interfaces| && Contains(interfaces[k].network, ip)
    ensures Search(table, ip).Some?
    ensures Plen(Search(table, ip).value) >= interfaces[k].network.prefixLen
  {
    assert table[k] == ConnectedRoute(interfaces[k]);
    SearchIsLongestMatch(table, ip);
    var i :| IsLongestMatch(table, ip, i) && table[i] == Search(table, ip).value;
  }
}
