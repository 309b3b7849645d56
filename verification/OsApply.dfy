/**
 * The OS applier (hemlock-mgmtd, osapply.rs) as steps on an abstract kernel, the
 * OS side of a commit's diff (intents.rs `diff_os`), and the claim in osapply.rs
 * lines 8-11 that boot replay and commit-time diffs converge.
 */
module OsApply {
  import opened Basics
  import opened KeyedDiff

  const DEFAULT_MTU: nat := 1500
  const DEFAULT_PORT_MTU: nat := 9100

  // ---------------------------------------------------------------- configuration

  /** One static route: an ECMP set or a null route, and its distance. */
  datatype StaticRoute = StaticRoute(nextHops: set<string>, drop: bool, distance: nat)

  datatype ArpStatic = ArpStatic(ifname: string, mac: string)

  /** What the configuration says about one kernel netdev. */
  datatype NetIntent = NetIntent(adminUp: Option<bool>, address: Option<string>, mtu: Option<nat>)

  /** Front-panel ports and SVIs: their admin state does not travel through the OS. */
  datatype L3Intent = L3Intent(address: Option<string>, mtu: Option<nat>)

  datatype Intents = Intents(
    management: map<string, NetIntent>,
    ports: map<string, L3Intent>,
    svis: map<string, L3Intent>,
    routes: map<string, StaticRoute>,
    arpStatics: map<string, ArpStatic>)

  /** The manifest's management interface and the netdev behind it. */
  datatype Platform = Platform(ifname: string, dev: string)

  const UNSET := NetIntent(None, None, None)

  function IntentOf(m: map<string, NetIntent>, name: string): NetIntent {
    if name in m then m[name] else UNSET
  }

  function NetView(m: map<string, L3Intent>): map<string, NetIntent> {
    map name | name in m :: NetIntent(None, m[name].address, m[name].mtu)
  }

  // ---------------------------------------------------------------- kernel state

  /** The metric and the route type are part of a kernel route's identity. */
  datatype RouteKey = RouteKey(prefix: string, metric: Option<nat>, blackhole: bool)

  datatype NeighKey = NeighKey(ip: string, dev: string)

  datatype Netdev = Netdev(addresses: set<string>, mtu: nat, up: bool)

  datatype State = State(
    routes: map<RouteKey, set<string>>,
    neighbours: map<NeighKey, string>,
    netdevs: map<string, Netdev>)

  // ---------------------------------------------------------------- routes

  type RouteChange = Change<string, StaticRoute>

  /** Distance 1 is sent without a metric. */
  function KeyOf(prefix: string, route: StaticRoute): RouteKey {
    RouteKey(prefix, if route.distance == 1 then None else Some(route.distance), route.drop)
  }

  function ApplyRoute(table: map<RouteKey, set<string>>, c: RouteChange): map<RouteKey, set<string>> {
    var stale := c.before.Some? &&
      (c.after.None? || c.after.value.distance != c.before.value.distance || c.after.value.drop != c.before.value.drop);
    var kept := if stale then table - {KeyOf(c.key, c.before.value)} else table;
    if c.after.Some? then kept[KeyOf(c.key, c.after.value) := c.after.value.nextHops] else kept
  }

  function ApplyRoutes(table: map<RouteKey, set<string>>, changes: seq<RouteChange>): map<RouteKey, set<string>>
    decreases |changes|
  {
    if changes == [] then table else ApplyRoutes(ApplyRoute(table, changes[0]), changes[1..])
  }

  /** The one kernel route each configured prefix asks for. */
  function RouteTable(routes: map<string, StaticRoute>): map<RouteKey, set<string>> {
    map prefix | prefix in routes :: KeyOf(prefix, routes[prefix]) := routes[prefix].nextHops
  }

  lemma RouteTableAt(routes: map<string, StaticRoute>, key: RouteKey)
    ensures Get(RouteTable(routes), key) ==
      if key.prefix in routes && KeyOf(key.prefix, routes[key.prefix]) == key
      then Some(routes[key.prefix].nextHops) else None
  {
  }

  lemma RouteStep(routes: map<string, StaticRoute>, c: RouteChange)
    requires c.before == Get(routes, c.key)
    ensures ApplyRoute(RouteTable(routes), c) == RouteTable(Patch(routes, c))
  {
    var got, want := ApplyRoute(RouteTable(routes), c), RouteTable(Patch(routes, c));
    forall key ensures Get(got, key) == Get(want, key) {
      RouteTableAt(routes, key);
      RouteTableAt(Patch(routes, c), key);
    }
    SameMap(got, want);
  }

  /** The before-values still hold when a diff is applied change by change. */
  ghost predicate Consistent<K, V>(m: map<K, V>, changes: seq<Change<K, V>>) {
    DistinctKeys(changes) && forall c <- changes :: c.before == Get(m, c.key)
  }

  lemma ConsistentTail<K, V>(m: map<K, V>, changes: seq<Change<K, V>>)
    requires Consistent(m, changes) && changes != []
    ensures changes[0].before == Get(m, changes[0].key) && Consistent(Patch(m, changes[0]), changes[1..])
  {
    assert changes[0] in changes;
    forall c | c in changes[1..] ensures c.before == Get(Patch(m, changes[0]), c.key) {
      var i :| 0 <= i < |changes[1..]| && changes[1..][i] == c;
      assert changes[i + 1] == c && c in changes;
    }
  }

  lemma {:induction false} RoutesStep(routes: map<string, StaticRoute>, changes: seq<RouteChange>)
    requires Consistent(routes, changes)
    ensures ApplyRoutes(RouteTable(routes), changes) == RouteTable(PatchAll(routes, changes))
    decreases |changes|
  {
    if changes != [] {
      ConsistentTail(routes, changes);
      RouteStep(routes, changes[0]);
      RoutesStep(Patch(routes, changes[0]), changes[1..]);
    }
  }

  /** One commit's route changes turn one configuration's table into the next one's. */
  lemma RoutesConverge(changes: seq<RouteChange>, now: map<string, StaticRoute>, want: map<string, StaticRoute>)
    requires IsDiff(changes, now, want)
    ensures ApplyRoutes(RouteTable(now), changes) == RouteTable(want)
  {
    RoutesStep(now, changes);
    DiffReaches(changes, now, want);
  }

  // ---------------------------------------------------------------- static neighbours

  type ArpChange = Change<string, ArpStatic>

  function NetdevOf(p: Platform, ifname: string): string {
    if ifname == p.ifname then p.dev else ifname
  }

  function NeighOf(p: Platform, ip: string, entry: ArpStatic): NeighKey {
    NeighKey(ip, NetdevOf(p, entry.ifname))
  }

  function ApplyArp(table: map<NeighKey, string>, p: Platform, c: ArpChange): map<NeighKey, string> {
    var stale := c.before.Some? && (c.after.None? || c.after.value.ifname != c.before.value.ifname);
    var kept := if stale then table - {NeighOf(p, c.key, c.before.value)} else table;
    if c.after.Some? then kept[NeighOf(p, c.key, c.after.value) := c.after.value.mac] else kept
  }

  function ApplyArps(table: map<NeighKey, string>, p: Platform, changes: seq<ArpChange>): map<NeighKey, string>
    decreases |changes|
  {
    if changes == [] then table else ApplyArps(ApplyArp(table, p, changes[0]), p, changes[1..])
  }

  function NeighTable(p: Platform, statics: map<string, ArpStatic>): map<NeighKey, string> {
    map ip | ip in statics :: NeighOf(p, ip, statics[ip]) := statics[ip].mac
  }

  lemma NeighTableAt(p: Platform, statics: map<string, ArpStatic>, key: NeighKey)
    ensures Get(NeighTable(p, statics), key) ==
      if key.ip in statics && NeighOf(p, key.ip, statics[key.ip]) == key then Some(statics[key.ip].mac) else None
  {
  }

  lemma ArpStep(p: Platform, statics: map<string, ArpStatic>, c: ArpChange)
    requires c.before == Get(statics, c.key)
    ensures ApplyArp(NeighTable(p, statics), p, c) == NeighTable(p, Patch(statics, c))
  {
    var got, want := ApplyArp(NeighTable(p, statics), p, c), NeighTable(p, Patch(statics, c));
    forall key ensures Get(got, key) == Get(want, key) {
      NeighTableAt(p, statics, key);
      NeighTableAt(p, Patch(statics, c), key);
    }
    SameMap(got, want);
  }

  lemma {:induction false} ArpsStep(p: Platform, statics: map<string, ArpStatic>, changes: seq<ArpChange>)
    requires Consistent(statics, changes)
    ensures ApplyArps(NeighTable(p, statics), p, changes) == NeighTable(p, PatchAll(statics, changes))
    decreases |changes|
  {
    if changes != [] {
      ConsistentTail(statics, changes);
      ArpStep(p, statics, changes[0]);
      ArpsStep(p, Patch(statics, changes[0]), changes[1..]);
    }
  }

  lemma ArpsConverge(p: Platform, changes: seq<ArpChange>, now: map<string, ArpStatic>, want: map<string, ArpStatic>)
    requires IsDiff(changes, now, want)
    ensures ApplyArps(NeighTable(p, now), p, changes) == NeighTable(p, want)
  {
    ArpsStep(p, now, changes);
    DiffReaches(changes, now, want);
  }
}
