/**
 * Boot replay and commit-time diffs converge (hemlock-mgmtd, osapply.rs lines 8-11):
 * whole runs of a box, from one boot through any number of commits.
 */
module Convergence {
  import opened Basics
  import opened KeyedDiff
  import opened OsApply
  import opened Netdevs

  datatype OsChanges = OsChanges(
    management: seq<NetdevChange>,
    ports: seq<NetdevChange>,
    svis: seq<NetdevChange>,
    routes: seq<RouteChange>,
    arp: seq<ArpChange>)

  /** The families in the applier's order. */
  function ApplyAll(s: State, p: Platform, ch: OsChanges): State {
    State(
      ApplyRoutes(s.routes, ch.routes),
      ApplyArps(s.neighbours, p, ch.arp),
      ApplyFamily(
        ApplyFamily(ApplyFamily(s.netdevs, p, ManagementFamily, ch.management), p, PortFamily, ch.ports),
        p, SviFamily, ch.svis))
  }

  ghost predicate NetdevDiff(ch: OsChanges, now: Intents, want: Intents) {
    Lists(ch.management, DiffPlan(now.management, want.management, DEFAULT_MTU)) &&
    Lists(ch.ports, DiffPlan(NetView(now.ports), NetView(want.ports), DEFAULT_PORT_MTU)) &&
    Lists(ch.svis, DiffPlan(NetView(now.svis), NetView(want.svis), DEFAULT_MTU))
  }

  ghost predicate NetdevReplay(ch: OsChanges, want: Intents) {
    Lists(ch.management, BootPlan(want.management)) &&
    Lists(ch.ports, BootPlan(NetView(want.ports))) &&
    Lists(ch.svis, BootPlan(NetView(want.svis)))
  }

  ghost predicate TableDiff(
      ch: OsChanges, routes: map<string, StaticRoute>, statics: map<string, ArpStatic>, want: Intents) {
    IsDiff(ch.routes, routes, want.routes) && IsDiff(ch.arp, statics, want.arpStatics)
  }

  /** What `diff_os` may return for a commit; the order of keys is left open. */
  ghost predicate IsOsDiff(ch: OsChanges, now: Intents, want: Intents) {
    NetdevDiff(ch, now, want) && TableDiff(ch, now.routes, now.arpStatics, want)
  }

  /** What the boot replay may send. */
  ghost predicate IsReplay(ch: OsChanges, want: Intents) {
    NetdevReplay(ch, want) && TableDiff(ch, map[], map[], want)
  }

  /** One boot, then any number of commits, with what each of them sent to the OS. */
  datatype Run =
    | Booted(config: Intents, sent: OsChanges)
    | Committed(prior: Run, config: Intents, sent: OsChanges)

  ghost predicate IsRun(r: Run) {
    match r
    case Booted(config, sent) => IsReplay(sent, config)
    case Committed(prior, config, sent) => IsRun(prior) && IsOsDiff(sent, prior.config, config)
  }

  /** The kernel after a run. */
  function EndOf(p: Platform, s: State, r: Run): State {
    match r
    case Booted(_, sent) => ApplyAll(s, p, sent)
    case Committed(prior, _, sent) => ApplyAll(EndOf(p, s, prior), p, sent)
  }

  /** The names each family may use: one netdev never belongs to two families. */
  datatype Inventory = Inventory(ports: set<string>, svis: set<string>)

  predicate Disjoint(p: Platform, inv: Inventory) {
    inv.ports !! inv.svis && p.dev !in inv.ports && p.dev !in inv.svis
  }

  predicate Fits(inv: Inventory, config: Intents) {
    config.ports.Keys <= inv.ports && config.svis.Keys <= inv.svis
  }

  predicate AllFit(inv: Inventory, r: Run) {
    Fits(inv, r.config) && (r.Committed? ==> AllFit(inv, r.prior))
  }

  /** What a configuration says about a netdev. */
  function IntentAt(p: Platform, inv: Inventory, config: Intents, dev: string): NetIntent {
    if dev == p.dev then IntentOf(config.management, p.ifname)
    else if dev in inv.ports then IntentOf(NetView(config.ports), dev)
    else if dev in inv.svis then IntentOf(NetView(config.svis), dev)
    else UNSET
  }

  function MtuAt(inv: Inventory, dev: string): nat {
    if dev in inv.ports then DEFAULT_PORT_MTU else DEFAULT_MTU
  }

  /** What the configurations of a run say about a netdev, oldest first. */
  function HistoryAt(p: Platform, inv: Inventory, r: Run, dev: string): (h: seq<NetIntent>)
    ensures h != [] && Last(h) == IntentAt(p, inv, r.config, dev)
  {
    (if r.Booted? then [] else HistoryAt(p, inv, r.prior, dev)) + [IntentAt(p, inv, r.config, dev)]
  }

  /** A kernel that has just started: no static route or neighbour yet, devices as they come. */
  predicate FreshTables(s: State) {
    s.routes == map[] && s.neighbours == map[]
  }

  // ---------------------------------------------------------------- tables

  /** The tables a configuration asks for. */
  ghost predicate HasTables(p: Platform, s: State, routes: map<string, StaticRoute>, statics: map<string, ArpStatic>) {
    s.routes == RouteTable(routes) && s.neighbours == NeighTable(p, statics)
  }

  lemma TablesStep(
      p: Platform, s: State, ch: OsChanges,
      routes: map<string, StaticRoute>, statics: map<string, ArpStatic>, want: Intents)
    requires TableDiff(ch, routes, statics, want) && HasTables(p, s, routes, statics)
    ensures HasTables(p, ApplyAll(s, p, ch), want.routes, want.arpStatics)
  {
    RoutesConverge(ch.routes, routes, want.routes);
    ArpsConverge(p, ch.arp, statics, want.arpStatics);
  }

  lemma EmptyTables(p: Platform)
    ensures RouteTable(map[]) == map[] && NeighTable(p, map[]) == map[]
  {
  }

  lemma {:induction false} TablesRun(p: Platform, s: State, r: Run)
    requires IsRun(r) && s.routes == map[] && s.neighbours == map[]
    ensures HasTables(p, EndOf(p, s, r), r.config.routes, r.config.arpStatics)
  {
    match r {
      case Booted(config, sent) =>
        EmptyTables(p);
        TablesStep(p, s, sent, map[], map[], config);
      case Committed(prior, config, sent) =>
        TablesRun(p, s, prior);
        TablesStep(p, EndOf(p, s, prior), sent, prior.config.routes, prior.config.arpStatics, config);
    }
  }

  // ---------------------------------------------------------------- devices

  /** The change of the family that owns a device. */
  function OwnChange(p: Platform, inv: Inventory, m: Plan, ports: Plan, svis: Plan, dev: string): Option<NetdevChange> {
    if dev == p.dev then Some(m.At(p.ifname))
    else if dev in inv.ports then Some(ports.At(dev))
    else if dev in inv.svis then Some(svis.At(dev))
    else None
  }

  /** Three listed families act on one device as the one that owns it. */
  lemma DeviceAt(p: Platform, inv: Inventory, s: State, ch: OsChanges, dev: string, m: Plan, ports: Plan, svis: Plan)
    requires Disjoint(p, inv) && dev in s.netdevs
    requires Lists(ch.management, m) && Lists(ch.ports, ports) && Lists(ch.svis, svis)
    requires dev !in inv.ports ==> IsNoop(ports.At(dev))
    requires dev !in inv.svis ==> IsNoop(svis.At(dev))
    ensures var own := OwnChange(p, inv, m, ports, svis, dev);
      Get(ApplyAll(s, p, ch).netdevs, dev) ==
      Some(if own.None? then s.netdevs[dev] else ApplyNetdev(s.netdevs[dev], own.value))
  {
    FamilyAt(s.netdevs, p, ManagementFamily, ch.management, m, dev);
    var one := ApplyFamily(s.netdevs, p, ManagementFamily, ch.management);
    FamilyAt(one, p, PortFamily, ch.ports, ports, dev);
    var two := ApplyFamily(one, p, PortFamily, ch.ports);
    FamilyAt(two, p, SviFamily, ch.svis, svis, dev);
    if dev !in inv.ports { NoopChangesNothing(one[dev], ports.At(dev)); }
    if dev !in inv.svis { NoopChangesNothing(two[dev], svis.At(dev)); }
  }

  lemma OutsideFamily(m: map<string, L3Intent>, names: set<string>, dev: string)
    requires m.Keys <= names && dev !in names
    ensures IntentOf(NetView(m), dev) == UNSET
  {
  }

  /** The name a change carries has no effect on the device. */
  lemma SameChange(n: Netdev, c: NetdevChange, d: NetdevChange)
    requires c.(name := "") == d.(name := "")
    ensures ApplyNetdev(n, c) == ApplyNetdev(n, d)
  {
  }

  lemma DiffAt(p: Platform, inv: Inventory, s: State, now: Intents, want: Intents, ch: OsChanges, dev: string)
    requires Disjoint(p, inv) && Fits(inv, now) && Fits(inv, want) && dev in s.netdevs
    requires NetdevDiff(ch, now, want)
    ensures Get(ApplyAll(s, p, ch).netdevs, dev) ==
      Some(ApplyNetdev(
        s.netdevs[dev], Delta("", IntentAt(p, inv, want, dev), IntentAt(p, inv, now, dev), MtuAt(inv, dev))))
  {
    if dev !in inv.ports { OutsideFamily(now.ports, inv.ports, dev); OutsideFamily(want.ports, inv.ports, dev); }
    if dev !in inv.svis { OutsideFamily(now.svis, inv.svis, dev); OutsideFamily(want.svis, inv.svis, dev); }
    var m := DiffPlan(now.management, want.management, DEFAULT_MTU);
    var ports := DiffPlan(NetView(now.ports), NetView(want.ports), DEFAULT_PORT_MTU);
    var svis := DiffPlan(NetView(now.svis), NetView(want.svis), DEFAULT_MTU);
    DeviceAt(p, inv, s, ch, dev, m, ports, svis);
    var own := OwnChange(p, inv, m, ports, svis, dev);
    var change := Delta("", IntentAt(p, inv, want, dev), IntentAt(p, inv, now, dev), MtuAt(inv, dev));
    if own.None? { NoopChangesNothing(s.netdevs[dev], change); } else { SameChange(s.netdevs[dev], own.value, change); }
  }

  lemma ReplayAt(p: Platform, inv: Inventory, s: State, want: Intents, ch: OsChanges, dev: string)
    requires Disjoint(p, inv) && Fits(inv, want) && dev in s.netdevs
    requires NetdevReplay(ch, want)
    ensures Get(ApplyAll(s, p, ch).netdevs, dev) ==
      Some(ApplyNetdev(s.netdevs[dev], Boot("", IntentAt(p, inv, want, dev))))
  {
    if dev !in inv.ports { OutsideFamily(want.ports, inv.ports, dev); }
    if dev !in inv.svis { OutsideFamily(want.svis, inv.svis, dev); }
    var m, ports, svis := BootPlan(want.management), BootPlan(NetView(want.ports)), BootPlan(NetView(want.svis));
    DeviceAt(p, inv, s, ch, dev, m, ports, svis);
    var own := OwnChange(p, inv, m, ports, svis, dev);
    var change := Boot("", IntentAt(p, inv, want, dev));
    if own.None? { NoopChangesNothing(s.netdevs[dev], change); } else { SameChange(s.netdevs[dev], own.value, change); }
  }

  lemma {:induction false} DeviceRun(p: Platform, inv: Inventory, s: State, r: Run, dev: string)
    requires IsRun(r) && Disjoint(p, inv) && AllFit(inv, r) && dev in s.netdevs
    ensures Get(EndOf(p, s, r).netdevs, dev) ==
      Some(RunNetdev(s.netdevs[dev], HistoryAt(p, inv, r, dev), MtuAt(inv, dev)))
  {
    var history := HistoryAt(p, inv, r, dev);
    match r {
      case Booted(config, sent) =>
        ReplayAt(p, inv, s, config, sent, dev);
      case Committed(prior, config, sent) =>
        DeviceRun(p, inv, s, prior, dev);
        DiffAt(p, inv, EndOf(p, s, prior), prior.config, config, sent, dev);
        assert history[..|history| - 1] == HistoryAt(p, inv, prior, dev);
    }
  }

  /** Two kernels agree on a device that ran through a history, in each respect exactly when it converges. */
  ghost predicate AgreeOn(a: State, b: State, dev: string, initial: Netdev, history: seq<NetIntent>, defaultMtu: nat)
    requires history != []
  {
    dev in a.netdevs && dev in b.netdevs &&
    (a.netdevs[dev].addresses == b.netdevs[dev].addresses <==> AddressesConverge(history, initial.addresses)) &&
    (a.netdevs[dev].mtu == b.netdevs[dev].mtu <==> MtuConverges(history, initial.mtu, defaultMtu)) &&
    (a.netdevs[dev].up == b.netdevs[dev].up <==> LinkConverges(history, initial.up))
  }

  lemma DeviceConverges(p: Platform, inv: Inventory, s: State, r: Run, replay: OsChanges, dev: string)
    requires IsRun(r) && Disjoint(p, inv) && AllFit(inv, r) && FreshTables(s)
    requires IsReplay(replay, r.config) && dev in s.netdevs
    ensures AgreeOn(
      EndOf(p, s, r), ApplyAll(s, p, replay), dev, s.netdevs[dev], HistoryAt(p, inv, r, dev), MtuAt(inv, dev))
  {
    DeviceRun(p, inv, s, r, dev);
    ReplayAt(p, inv, s, r.config, replay, dev);
    NetdevConverges(s.netdevs[dev], HistoryAt(p, inv, r, dev), MtuAt(inv, dev));
  }

  /**
   * After any run, routes and static neighbours are those a fresh boot of the last
   * configuration gives; so are the addresses, the MTU and the link of a device, each exactly
   * when it converges.
   */
  lemma RunsConverge(p: Platform, inv: Inventory, s: State, r: Run, replay: OsChanges)
    requires IsRun(r) && Disjoint(p, inv) && AllFit(inv, r) && FreshTables(s)
    requires IsReplay(replay, r.config)
    ensures var end, boot := EndOf(p, s, r), ApplyAll(s, p, replay);
      && end.routes == boot.routes == RouteTable(r.config.routes)
      && end.neighbours == boot.neighbours == NeighTable(p, r.config.arpStatics)
      && forall dev <- s.netdevs ::
           AgreeOn(end, boot, dev, s.netdevs[dev], HistoryAt(p, inv, r, dev), MtuAt(inv, dev))
  {
    TablesRun(p, s, r);
    TablesRun(p, s, Booted(r.config, replay));
    forall dev | dev in s.netdevs
      ensures AgreeOn(
      EndOf(p, s, r), ApplyAll(s, p, replay), dev, s.netdevs[dev], HistoryAt(p, inv, r, dev), MtuAt(inv, dev))
    {
      DeviceConverges(p, inv, s, r, replay, dev);
    }
  }

  // ---------------------------------------------------------------- the diff and the applier

  method DiffOs(now: Intents, want: Intents) returns (ch: OsChanges)
    ensures IsOsDiff(ch, now, want)
  {
    var management := DiffNetdevs(now.management, want.management, DEFAULT_MTU);
    var ports := DiffNetdevs(NetView(now.ports), NetView(want.ports), DEFAULT_PORT_MTU);
    var svis := DiffNetdevs(NetView(now.svis), NetView(want.svis), DEFAULT_MTU);
    var routes := Diff(now.routes, want.routes);
    var arp := Diff(now.arpStatics, want.arpStatics);
    ch := OsChanges(management, ports, svis, routes, arp);
  }

  method ReplayOs(want: Intents) returns (ch: OsChanges)
    ensures IsReplay(ch, want)
  {
    var management := ReplayNetdevs(want.management, false);
    var ports := ReplayNetdevs(NetView(want.ports), true);
    var svis := ReplayNetdevs(NetView(want.svis), true);
    var routes := Diff(map[], want.routes);
    var arp := Diff(map[], want.arpStatics);
    ch := OsChanges(management, ports, svis, routes, arp);
  }

  class Kernel {
    var routes: map<RouteKey, set<string>>
    var neighbours: map<NeighKey, string>
    var netdevs: map<string, Netdev>

    function Snapshot(): State
      reads this
    {
      State(routes, neighbours, netdevs)
    }

    method RunFamily(p: Platform, family: Family, changes: seq<NetdevChange>)
      modifies this`netdevs
      ensures netdevs == ApplyFamily(old(netdevs), p, family, changes)
    {
      var i := 0;
      while i < |changes|
        invariant i <= |changes|
        invariant ApplyFamily(netdevs, p, family, changes[i..]) == ApplyFamily(old(netdevs), p, family, changes)
      {
        var c := changes[i];
        assert changes[i..][0] == c && changes[i..][1..] == changes[i + 1..];
        var dev := DeviceOf(p, family, c.name);
        if dev.Some? && dev.value in netdevs {
          netdevs := netdevs[dev.value := ApplyNetdev(netdevs[dev.value], c)];
        }
        i := i + 1;
      }
    }

    method RunRoutes(changes: seq<RouteChange>)
      modifies this`routes
      ensures routes == ApplyRoutes(old(routes), changes)
    {
      var i := 0;
      while i < |changes|
        invariant i <= |changes|
        invariant ApplyRoutes(routes, changes[i..]) == ApplyRoutes(old(routes), changes)
      {
        var c := changes[i];
        assert changes[i..][0] == c && changes[i..][1..] == changes[i + 1..];
        ghost var before := routes;
        if c.before.Some? {
          var stale := c.after.None? ||
            c.after.value.distance != c.before.value.distance || c.after.value.drop != c.before.value.drop;
          if stale {
            routes := routes - {KeyOf(c.key, c.before.value)};
          }
        }
        if c.after.Some? {
          routes := routes[KeyOf(c.key, c.after.value) := c.after.value.nextHops];
        }
        assert routes == ApplyRoute(before, c);
        i := i + 1;
      }
    }

    method RunArp(p: Platform, changes: seq<ArpChange>)
      modifies this`neighbours
      ensures neighbours == ApplyArps(old(neighbours), p, changes)
    {
      var i := 0;
      while i < |changes|
        invariant i <= |changes|
        invariant ApplyArps(neighbours, p, changes[i..]) == ApplyArps(old(neighbours), p, changes)
      {
        var c := changes[i];
        assert changes[i..][0] == c && changes[i..][1..] == changes[i + 1..];
        ghost var before := neighbours;
        if c.before.Some? && (c.after.None? || c.after.value.ifname != c.before.value.ifname) {
          neighbours := neighbours - {NeighOf(p, c.key, c.before.value)};
        }
        if c.after.Some? {
          neighbours := neighbours[NeighOf(p, c.key, c.after.value) := c.after.value.mac];
        }
        assert neighbours == ApplyArp(before, p, c);
        i := i + 1;
      }
    }

    /** One commit's delta, family by family. */
    method Apply(p: Platform, ch: OsChanges)
      modifies this
      ensures Snapshot() == ApplyAll(old(Snapshot()), p, ch)
    {
      RunFamily(p, ManagementFamily, ch.management);
      RunFamily(p, PortFamily, ch.ports);
      RunFamily(p, SviFamily, ch.svis);
      RunRoutes(ch.routes);
      RunArp(p, ch.arp);
    }

    /** A commit: diff the running against the wanted configuration and apply it. */
    method Commit(p: Platform, now: Intents, want: Intents) returns (ch: OsChanges)
      modifies this
      ensures IsOsDiff(ch, now, want) && Snapshot() == ApplyAll(old(Snapshot()), p, ch)
    {
      ch := DiffOs(now, want);
      Apply(p, ch);
    }

    /** Boot-time replay of the whole running configuration. */
    method Replay(p: Platform, want: Intents) returns (ch: OsChanges)
      modifies this
      ensures IsReplay(ch, want) && Snapshot() == ApplyAll(old(Snapshot()), p, ch)
    {
      ch := ReplayOs(want);
      Apply(p, ch);
    }
  }
}
