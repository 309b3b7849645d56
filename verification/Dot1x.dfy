/**
 * The 802.1X engine (hemlock-orch, dot1x.rs): configuration and control-socket
 * events in, authorization flips and hostapd directives out. Flips are sent under the
 * engine's lock; a directive is sent after the lock is released, so other calls may come
 * between deciding on it and sending it.
 */
module Dot1x {
  import opened Basics

  datatype Radius = Radius(ip: string, key: string, port: nat, timeout: nat, retransmit: nat)

  datatype Config = Config(radius: seq<Radius>, reauthInterval: nat, ports: set<string>)

  const DEFAULT_CONFIG := Config([], 0, {})

  datatype CtrlEvent =
    | AuthSuccess(port: string, mac: string)
    | AuthFailure(port: string, mac: string)
    | Logoff(port: string, mac: string)

  datatype Directive = Reconfigure(config: Config) | Reauth(port: string)

  datatype PortState = PortState(authorized: bool, supplicant: Option<string>, lastAuth: Option<nat>, failures: nat)

  const ENABLED := PortState(false, None, None, 0)

  /** An authorization flip for the dataplane. */
  type Flip = (string, bool)

  /** `pending` are the directives of calls that have released the lock and not sent yet. */
  datatype State = State(
    config: Config,
    ports: map<string, PortState>,
    authOut: seq<Flip>,
    pending: seq<Directive>,
    directives: seq<Directive>)

  const SPAWNED := State(DEFAULT_CONFIG, map[], [], [], [])

  // ---------------------------------------------------------------- the steps

  function Flips(ports: seq<string>, authorized: bool): seq<Flip> {
    if ports == [] then [] else [(ports[0], authorized)] + Flips(ports[1..], authorized)
  }

  /** Unknown ports are re-authorized, new ones start unauthorized, the rest keep their state. */
  function Configure(s: State, config: Config, removed: seq<string>, added: seq<string>): State {
    if s.config == config then s
    else State(
        config,
        map port | port in config.ports :: if port in s.ports then s.ports[port] else ENABLED,
        s.authOut + Flips(removed, true) + Flips(added, false),
        s.pending + [Reconfigure(config)],
        s.directives)
  }

  function After(p: PortState, e: CtrlEvent, now: nat): PortState {
    match e
    case AuthSuccess(_, mac) => PortState(true, Some(mac), Some(now), p.failures)
    case AuthFailure(_, mac) => PortState(false, if mac == "" then None else Some(mac), p.lastAuth, p.failures + 1)
    case Logoff(_, _) => PortState(false, None, p.lastAuth, p.failures)
  }

  /** Events for ports without an authenticator are dropped; a flip is sent only on a change. */
  function Handle(s: State, e: CtrlEvent, now: nat): State {
    if e.port !in s.ports then s
    else
      var before := s.ports[e.port];
      var after := After(before, e, now);
      s.(ports := s.ports[e.port := after],
         authOut := if after.authorized == before.authorized then s.authOut
                    else s.authOut + [(e.port, after.authorized)])
  }

  function ForceReauth(s: State, port: string): State {
    if port in s.ports then s.(pending := s.pending + [Reauth(port)]) else s
  }

  function Without(pending: seq<Directive>, i: nat): seq<Directive>
    requires i < |pending|
  {
    pending[..i] + pending[i + 1..]
  }

  /** One of the calls on their way out sends its directive. */
  function Send(s: State, i: nat): State {
    if i < |s.pending| then s.(pending := Without(s.pending, i), directives := s.directives + [s.pending[i]]) else s
  }

  // ---------------------------------------------------------------- runs

  /** Everything that happened to an engine, newest last. The two orders are the engine's choice. */
  datatype Log =
    | Spawned
    | Configured(prior: Log, config: Config, removed: seq<string>, added: seq<string>)
    | Happened(prior: Log, event: CtrlEvent, now: nat)
    | Reauthed(prior: Log, port: string)
    | Sent(prior: Log, index: nat)

  function StateOf(log: Log): State {
    match log
    case Spawned => SPAWNED
    case Configured(prior, config, removed, added) => Configure(StateOf(prior), config, removed, added)
    case Happened(prior, event, now) => Handle(StateOf(prior), event, now)
    case Reauthed(prior, port) => ForceReauth(StateOf(prior), port)
    case Sent(prior, index) => Send(StateOf(prior), index)
  }

  /** A reconfiguration visits every vanished and every new port exactly once. */
  ghost predicate IsLog(log: Log) {
    match log
    case Spawned => true
    case Configured(prior, config, removed, added) =>
      IsLog(prior) && Distinct(removed) && Distinct(added) &&
      Elements(removed) == StateOf(prior).ports.Keys - config.ports &&
      Elements(added) == config.ports - StateOf(prior).ports.Keys
    case Happened(prior, _, _) => IsLog(prior)
    case Reauthed(prior, _) => IsLog(prior)
    case Sent(prior, index) => IsLog(prior) && index < |StateOf(prior).pending|
  }

  // What a log says, without looking at the engine.

  function ConfigOf(log: Log): Config {
    match log
    case Spawned => DEFAULT_CONFIG
    case Configured(_, config, _, _) => config
    case Happened(prior, _, _) => ConfigOf(prior)
    case Reauthed(prior, _) => ConfigOf(prior)
    case Sent(prior, _) => ConfigOf(prior)
  }

  /** The events of a port since it was last enabled. */
  function EventsSince(log: Log, port: string): seq<(CtrlEvent, nat)> {
    match log
    case Spawned => []
    case Configured(prior, config, _, _) => if port in config.ports then EventsSince(prior, port) else []
    case Happened(prior, event, now) =>
      EventsSince(prior, port) + if event.port == port && port in ConfigOf(prior).ports then [(event, now)] else []
    case Reauthed(prior, _) => EventsSince(prior, port)
    case Sent(prior, _) => EventsSince(prior, port)
  }

  /** The directives asked for, in the order of the calls. */
  function Requests(log: Log): seq<Directive> {
    match log
    case Spawned => []
    case Configured(prior, config, _, _) =>
      Requests(prior) + if config == ConfigOf(prior) then [] else [Reconfigure(config)]
    case Happened(prior, _, _) => Requests(prior)
    case Reauthed(prior, port) => Requests(prior) + if port in ConfigOf(prior).ports then [Reauth(port)] else []
    case Sent(prior, _) => Requests(prior)
  }

  function Failures(events: seq<(CtrlEvent, nat)>): nat {
    if events == [] then 0
    else Failures(events[..|events| - 1]) + if events[|events| - 1].0.AuthFailure? then 1 else 0
  }

  /** Time of the last success. */
  function LastSuccess(events: seq<(CtrlEvent, nat)>): Option<nat> {
    if events == [] then None
    else if events[|events| - 1].0.AuthSuccess? then Some(events[|events| - 1].1)
    else LastSuccess(events[..|events| - 1])
  }

  function LastSupplicant(events: seq<(CtrlEvent, nat)>): Option<string> {
    if events == [] then None
    else
      var last := events[|events| - 1].0;
      if last.Logoff? || (last.AuthFailure? && last.mac == "") then None else Some(last.mac)
  }

  /** A port is authorized exactly when its last event since enabling was a success. */
  function PortOf(events: seq<(CtrlEvent, nat)>): PortState {
    PortState(
      events != [] && events[|events| - 1].0.AuthSuccess?,
      LastSupplicant(events),
      LastSuccess(events),
      Failures(events))
  }

  /** The dataplane folds the flips over ports that all start authorized. */
  function Dataplane(out: seq<Flip>, port: string): bool {
    if out == [] then true
    else if out[|out| - 1].0 == port then out[|out| - 1].1
    else Dataplane(out[..|out| - 1], port)
  }

  /** The configuration hostapd was last told. */
  function LastReconfigure(directives: seq<Directive>): Config {
    if directives == [] then DEFAULT_CONFIG
    else if directives[|directives| - 1].Reconfigure? then directives[|directives| - 1].config
    else LastReconfigure(directives[..|directives| - 1])
  }

  ghost predicate Invariant(log: Log, s: State) {
    && s.config == ConfigOf(log)
    && s.ports.Keys == s.config.ports
    && (forall port :: port in s.ports ==> s.ports[port] == PortOf(EventsSince(log, port)))
    && (forall port :: port !in s.ports ==> EventsSince(log, port) == [])
    && (forall port :: Dataplane(s.authOut, port) == (port in s.ports ==> s.ports[port].authorized))
  }

  /** Each directive asked for was sent once or is pending; the newest configuration asked for is the current one. */
  ghost predicate Conserved(log: Log, s: State) {
    multiset(s.directives) + multiset(s.pending) == multiset(Requests(log)) &&
    LastReconfigure(Requests(log)) == s.config
  }

  lemma DataplaneSnoc(out: seq<Flip>, flip: Flip, port: string)
    ensures Dataplane(out + [flip], port) == if flip.0 == port then flip.1 else Dataplane(out, port)
  {
    assert (out + [flip])[..|out|] == out;
  }

  lemma {:induction false} DataplaneFlips(out: seq<Flip>, ports: seq<string>, authorized: bool, port: string)
    ensures Dataplane(out + Flips(ports, authorized), port) ==
      if port in ports then authorized else Dataplane(out, port)
    decreases |ports|
  {
    if ports == [] {
      Unit(out);
    } else {
      Assoc(out, [(ports[0], authorized)], Flips(ports[1..], authorized));
      DataplaneFlips(out + [(ports[0], authorized)], ports[1..], authorized, port);
      DataplaneSnoc(out, (ports[0], authorized), port);
    }
  }

  lemma LastReconfigureSnoc(directives: seq<Directive>, d: Directive)
    ensures LastReconfigure(directives + [d]) == if d.Reconfigure? then d.config else LastReconfigure(directives)
  {
    assert (directives + [d])[..|directives|] == directives;
  }

  lemma PortOfSnoc(events: seq<(CtrlEvent, nat)>, e: CtrlEvent, now: nat)
    ensures PortOf(events + [(e, now)]) == After(PortOf(events), e, now)
  {
    assert (events + [(e, now)])[..|events|] == events;
  }

  lemma ConfigureKeeps(log: Log, s: State)
    requires log.Configured? && Invariant(log.prior, s)
    requires Elements(log.removed) == s.ports.Keys - log.config.ports
    requires Elements(log.added) == log.config.ports - s.ports.Keys
    ensures Invariant(log, Configure(s, log.config, log.removed, log.added))
  {
    var t := Configure(s, log.config, log.removed, log.added);
    forall port ensures Dataplane(t.authOut, port) == (port in t.ports ==> t.ports[port].authorized) {
      if s.config != log.config {
        DataplaneFlips(s.authOut, log.removed, true, port);
        DataplaneFlips(s.authOut + Flips(log.removed, true), log.added, false, port);
        assert port in log.removed <==> port in Elements(log.removed);
        assert port in log.added <==> port in Elements(log.added);
      }
    }
  }

  lemma HandleDataplane(s: State, e: CtrlEvent, now: nat, port: string)
    requires Dataplane(s.authOut, port) == (port in s.ports ==> s.ports[port].authorized)
    requires Dataplane(s.authOut, e.port) == (e.port in s.ports ==> s.ports[e.port].authorized)
    ensures var t := Handle(s, e, now);
      Dataplane(t.authOut, port) == (port in t.ports ==> t.ports[port].authorized)
  {
    if e.port in s.ports { DataplaneSnoc(s.authOut, (e.port, After(s.ports[e.port], e, now).authorized), port); }
  }

  lemma HandlePort(log: Log, port: string)
    requires log.Happened?
    ensures EventsSince(log, port) ==
      if log.event.port == port && port in ConfigOf(log.prior).ports
      then EventsSince(log.prior, port) + [(log.event, log.now)] else EventsSince(log.prior, port)
  {
    Unit(EventsSince(log.prior, port));
  }

  lemma HandleKeepsAt(log: Log, s: State, port: string)
    requires log.Happened? && Invariant(log.prior, s)
    ensures var t := Handle(s, log.event, log.now);
      Dataplane(t.authOut, port) == (port in t.ports ==> t.ports[port].authorized) &&
      (port in t.ports ==> t.ports[port] == PortOf(EventsSince(log, port))) &&
      (port !in t.ports ==> EventsSince(log, port) == [])
  {
    HandleDataplane(s, log.event, log.now, port);
    HandlePort(log, port);
    PortOfSnoc(EventsSince(log.prior, port), log.event, log.now);
  }

  lemma HandleKeeps(log: Log, s: State)
    requires log.Happened? && Invariant(log.prior, s)
    ensures Invariant(log, Handle(s, log.event, log.now))
  {
    var t := Handle(s, log.event, log.now);
    forall port
      ensures Dataplane(t.authOut, port) == (port in t.ports ==> t.ports[port].authorized)
      ensures port in t.ports ==> t.ports[port] == PortOf(EventsSince(log, port))
      ensures port !in t.ports ==> EventsSince(log, port) == []
    {
      HandleKeepsAt(log, s, port);
    }
  }

  lemma SentOnce(pending: seq<Directive>, i: nat)
    requires i < |pending|
    ensures multiset(pending) == multiset(Without(pending, i)) + multiset{pending[i]}
  {
    assert pending == pending[..i] + [pending[i]] + pending[i + 1..];
  }

  /** The invariant holds after every interleaving of configurations, events, reauthentications and sends. */
  lemma {:induction false} RunInvariant(log: Log)
    requires IsLog(log)
    ensures Invariant(log, StateOf(log))
  {
    match log {
      case Spawned =>
      case Configured(prior, config, removed, added) =>
        RunInvariant(prior);
        ConfigureKeeps(log, StateOf(prior));
      case Happened(prior, event, now) =>
        RunInvariant(prior);
        HandleKeeps(log, StateOf(prior));
      case Reauthed(prior, port) =>
        RunInvariant(prior);
      case Sent(prior, index) =>
        RunInvariant(prior);
    }
  }

  lemma Asked(log: Log, s: State, t: State, d: Directive)
    requires Conserved(log, s) && t.directives == s.directives && t.pending == s.pending + [d]
    ensures multiset(t.directives) + multiset(t.pending) == multiset(Requests(log) + [d])
    ensures LastReconfigure(Requests(log) + [d]) == if d.Reconfigure? then d.config else s.config
  {
    LastReconfigureSnoc(Requests(log), d);
  }

  lemma {:induction false} RunConserves(log: Log)
    requires IsLog(log)
    ensures Conserved(log, StateOf(log))
  {
    if !log.Spawned? {
      var s, t := StateOf(log.prior), StateOf(log);
      RunConserves(log.prior);
      RunInvariant(log.prior);
      Unit(Requests(log.prior));
      match log {
        case Configured(prior, config, _, _) =>
          if config != s.config { Asked(prior, s, t, Reconfigure(config)); }
        case Happened(_, _, _) =>
        case Reauthed(prior, port) =>
          if port in s.ports { Asked(prior, s, t, Reauth(port)); }
        case Sent(_, index) =>
          SentOnce(s.pending, index);
      }
    }
  }

  /** An event sends at most one flip, and that flip changes what the dataplane does. */
  lemma EventFlipsMatter(log: Log, event: CtrlEvent, now: nat)
    requires IsLog(log)
    ensures var s, t := StateOf(log), Handle(StateOf(log), event, now);
      t.authOut == s.authOut ||
      exists flip :: t.authOut == s.authOut + [flip] && Dataplane(s.authOut, flip.0) != flip.1
  {
    RunInvariant(log);
    var s, t := StateOf(log), Handle(StateOf(log), event, now);
    if t.authOut != s.authOut {
      var flip := (event.port, t.ports[event.port].authorized);
      assert t.authOut == s.authOut + [flip] && Dataplane(s.authOut, flip.0) != flip.1;
    }
  }

  /** Enabling a port always closes it; disabling re-opens it, redundantly exactly when it was authorized. */
  lemma ConfigFlips(log: Log)
    requires IsLog(log) && log.Configured?
    ensures forall port <- log.added :: Dataplane(StateOf(log.prior).authOut, port)
    ensures forall port <- log.removed ::
      port in StateOf(log.prior).ports &&
      Dataplane(StateOf(log.prior).authOut, port) == StateOf(log.prior).ports[port].authorized
  {
    RunInvariant(log.prior);
    forall port | port in log.added ensures Dataplane(StateOf(log.prior).authOut, port) {
      assert port in Elements(log.added);
    }
    forall port | port in log.removed ensures port in StateOf(log.prior).ports {
      assert port in Elements(log.removed);
    }
  }

  lemma PortsAreConfigured(log: Log)
    requires IsLog(log)
    ensures StateOf(log).ports.Keys == StateOf(log).config.ports == ConfigOf(log).ports
  {
    RunInvariant(log);
  }

  /** Dropping the stale and adding the new ports leaves the wanted ones. */
  lemma Reconfigured(ports: map<string, PortState>, wanted: set<string>, removed: seq<string>, added: seq<string>)
    requires Elements(removed) == ports.Keys - wanted
    requires Elements(added) == wanted - (ports - Elements(removed)).Keys
    ensures Elements(added) == wanted - ports.Keys
    ensures (ports - Elements(removed)) + (map port | port in Elements(added) :: ENABLED) ==
            map port | port in wanted :: if port in ports then ports[port] else ENABLED
  {
  }

  // ---------------------------------------------------------------- what hostapd is told

  /** Directives leave in the order of the calls. */
  predicate FirstOut(log: Log) {
    match log
    case Spawned => true
    case Configured(prior, _, _, _) => FirstOut(prior)
    case Happened(prior, _, _) => FirstOut(prior)
    case Reauthed(prior, _) => FirstOut(prior)
    case Sent(prior, index) => FirstOut(prior) && index == 0
  }

  lemma {:induction false} FirstOutSends(log: Log)
    requires IsLog(log) && FirstOut(log)
    ensures StateOf(log).directives + StateOf(log).pending == Requests(log)
  {
    if !log.Spawned? {
      FirstOutSends(log.prior);
      RunInvariant(log.prior);
      var s := StateOf(log.prior);
      match log {
        case Configured(_, config, _, _) => Assoc(s.directives, s.pending, [Reconfigure(config)]);
        case Happened(_, _, _) =>
        case Reauthed(_, port) => Assoc(s.directives, s.pending, [Reauth(port)]);
        case Sent(_, index) => assert s.pending == [s.pending[0]] + Without(s.pending, 0);
      }
    }
  }

  /** Then hostapd ends with the current configuration once everything is sent. */
  lemma FirstOutTells(log: Log)
    requires IsLog(log) && FirstOut(log) && StateOf(log).pending == []
    ensures LastReconfigure(StateOf(log).directives) == StateOf(log).config
  {
    FirstOutSends(log);
    RunConserves(log);
    Unit(StateOf(log).directives);
  }

  /** An order in which all pending calls send, by their index among those still pending. */
  predicate Drains(s: State, order: seq<nat>)
    decreases |order|
  {
    if order == [] then s.pending == [] else order[0] < |s.pending| && Drains(Send(s, order[0]), order[1..])
  }

  function SendAll(s: State, order: seq<nat>): State
    decreases |order|
  {
    if order == [] then s else SendAll(Send(s, order[0]), order[1..])
  }

  /** However the pending calls are scheduled, hostapd ends with the current configuration. */
  ghost predicate AlwaysTold(s: State) {
    forall order :: Drains(s, order) ==> LastReconfigure(SendAll(s, order).directives) == s.config
  }

  /** No other configuration is on its way out, and the current one is, or was the last to leave. */
  predicate Settled(s: State) {
    (forall d <- s.pending :: d.Reconfigure? ==> d.config == s.config) &&
    (Reconfigure(s.config) in s.pending || LastReconfigure(s.directives) == s.config)
  }

  lemma {:induction false} SettledTells(s: State, order: seq<nat>)
    requires Settled(s) && Drains(s, order)
    ensures LastReconfigure(SendAll(s, order).directives) == s.config
    decreases |order|
  {
    if order != [] {
      var t := Send(s, order[0]);
      LastReconfigureSnoc(s.directives, s.pending[order[0]]);
      assert s.pending == s.pending[..order[0]] + [s.pending[order[0]]] + s.pending[order[0] + 1..];
      assert Settled(t);
      SettledTells(t, order[1..]);
    }
  }

  /** A schedule that sends directive i last. */
  lemma {:induction false} SendsLast(s: State, i: nat) returns (order: seq<nat>)
    requires i < |s.pending|
    ensures Drains(s, order)
    ensures s.pending[i].Reconfigure? ==> LastReconfigure(SendAll(s, order).directives) == s.pending[i].config
    decreases |s.pending|
  {
    if |s.pending| == 1 {
      LastReconfigureSnoc(s.directives, s.pending[0]);
      order := [0];
      assert order[1..] == [];
    } else {
      var first, left := if i == 0 then 1 else 0, if i == 0 then 0 else i - 1;
      var t := Send(s, first);
      assert t.pending[left] == s.pending[i];
      var rest := SendsLast(t, left);
      order := [first] + rest;
      assert order[1..] == rest;
    }
  }

  /** Sending reauthentications does not change what hostapd was told. */
  lemma {:induction false} NothingTold(s: State) returns (order: seq<nat>)
    requires forall d <- s.pending :: d.Reauth?
    ensures Drains(s, order) && LastReconfigure(SendAll(s, order).directives) == LastReconfigure(s.directives)
    decreases |s.pending|
  {
    if s.pending == [] {
      order := [];
    } else {
      assert s.pending[0] in s.pending;
      LastReconfigureSnoc(s.directives, s.pending[0]);
      var rest := NothingTold(Send(s, 0));
      order := [0] + rest;
      assert order[1..] == rest;
    }
  }

  /** Whatever was interleaved before, hostapd is sure to end with the current configuration exactly when settled. */
  lemma ToldIff(s: State)
    ensures AlwaysTold(s) <==> Settled(s)
  {
    if Settled(s) {
      forall order | Drains(s, order) ensures LastReconfigure(SendAll(s, order).directives) == s.config {
        SettledTells(s, order);
      }
    } else if exists i :: 0 <= i < |s.pending| && s.pending[i].Reconfigure? && s.pending[i].config != s.config {
      var i :| 0 <= i < |s.pending| && s.pending[i].Reconfigure? && s.pending[i].config != s.config;
      var order := SendsLast(s, i);
    } else {
      var order := NothingTold(s);
    }
  }

  lemma {:induction false} Listing(ports: set<string>) returns (order: seq<string>)
    ensures Distinct(order) && Elements(order) == ports
    decreases ports
  {
    order := [];
    if ports != {} {
      var port :| port in ports;
      var rest := Listing(ports - {port});
      assert port !in Elements(rest);
      ElementsSnoc(rest, port);
      order := rest + [port];
    }
  }

  lemma Reconfiguring(prior: Log, config: Config) returns (log: Log)
    requires IsLog(prior) && config != StateOf(prior).config
    ensures IsLog(log) && StateOf(log).config == config && StateOf(log).directives == StateOf(prior).directives
    ensures StateOf(log).pending == StateOf(prior).pending + [Reconfigure(config)]
  {
    var removed := Listing(StateOf(prior).ports.Keys - config.ports);
    var added := Listing(config.ports - StateOf(prior).ports.Keys);
    log := Configured(prior, config, removed, added);
  }

  /** Two overlapping calls, at any time, can leave hostapd on the older configuration for good. */
  lemma OverlapMisleads(prior: Log, a: Config, b: Config) returns (log: Log)
    requires IsLog(prior) && StateOf(prior).pending == [] && a != b && a != StateOf(prior).config
    ensures IsLog(log) && StateOf(log).pending == []
    ensures StateOf(log).config == b && LastReconfigure(StateOf(log).directives) == a
  {
    var one := Reconfiguring(prior, a);
    var two := Reconfiguring(one, b);
    assert StateOf(two).pending == [Reconfigure(a), Reconfigure(b)];
    var three := Sent(two, 1);
    assert StateOf(three).pending == [Reconfigure(a)];
    log := Sent(three, 0);
    LastReconfigureSnoc(StateOf(three).directives, Reconfigure(a));
  }

  // ---------------------------------------------------------------- the engine object

  class Engine {
    var config: Config
    var ports: map<string, PortState>
    var authOut: seq<Flip>
    var pending: seq<Directive>
    var directives: seq<Directive>
    ghost var log: Log

    function Snapshot(): State
      reads this
    {
      State(config, ports, authOut, pending, directives)
    }

    ghost predicate Valid()
      reads this
    {
      IsLog(log) && StateOf(log) == Snapshot()
    }

    constructor Spawn()
      ensures Valid() && log == Spawned
    {
      config, ports, authOut, pending, directives := DEFAULT_CONFIG, map[], [], [], [];
      log := Spawned;
    }

    /** What `set_config` does under the lock, and whether it has a directive to send. */
    method ApplyConfig(wanted: Config) returns (changedProcess: bool)
      requires Valid()
      modifies this
      ensures Valid()
      ensures log.Configured? && log.prior == old(log) && log.config == wanted
      ensures changedProcess <==> wanted != ConfigOf(old(log))
      ensures pending == old(pending) + if changedProcess then [Reconfigure(wanted)] else []
    {
      PortsAreConfigured(log);
      RunInvariant(log);
      if config == wanted {
        assert Configure(Snapshot(), wanted, [], []) == Snapshot();
        log := Configured(log, wanted, [], []);
        Unit(pending);
        return false;
      }
      changedProcess := config.radius != wanted.radius ||
        config.reauthInterval != wanted.reauthInterval || config.ports != wanted.ports;
      var removed := Ordered(ports.Keys - wanted.ports);
      DropPorts(removed);
      var added := Ordered(wanted.ports - ports.Keys);
      Reconfigured(old(ports), wanted.ports, removed, added);
      AddPorts(added);
      config := wanted;
      if changedProcess {
        pending := pending + [Reconfigure(wanted)];
      }
      log := Configured(log, wanted, removed, added);
    }

    /** One call on its way out. */
    method Deliver(index: nat)
      requires Valid() && index < |pending|
      modifies this
      ensures Valid() && log == Sent(old(log), index)
    {
      directives := directives + [pending[index]];
      pending := Without(pending, index);
      log := Sent(log, index);
    }

    /** The whole call, with no other call in between. */
    method SetConfig(wanted: Config)
      requires Valid()
      modifies this
      ensures Valid()
      ensures wanted == ConfigOf(old(log)) ==> log.Configured? && log.prior == old(log) && log.config == wanted
      ensures wanted != ConfigOf(old(log)) ==>
        log.Sent? && log.index == |old(pending)| &&
        log.prior.Configured? && log.prior.prior == old(log) && log.prior.config == wanted
    {
      var changedProcess := ApplyConfig(wanted);
      if changedProcess {
        Deliver(|pending| - 1);
      }
    }

    method DropPorts(removed: seq<string>)
      modifies this`ports, this`authOut
      ensures ports == old(ports) - Elements(removed)
      ensures authOut == old(authOut) + Flips(removed, true)
    {
      var i := 0;
      while i < |removed|
        invariant i <= |removed|
        invariant ports == old(ports) - Elements(removed[..i])
        invariant authOut == old(authOut) + Flips(removed[..i], true)
      {
        FlipsSnoc(old(authOut), removed[..i], removed[i], true);
        ElementsSnoc(removed[..i], removed[i]);
        assert removed[..i + 1] == removed[..i] + [removed[i]];
        ports := ports - {removed[i]};
        authOut := authOut + [(removed[i], true)];
        i := i + 1;
      }
      assert removed[..i] == removed;
    }

    method AddPorts(added: seq<string>)
      requires Elements(added) !! ports.Keys
      modifies this`ports, this`authOut
      ensures ports == old(ports) + map port | port in Elements(added) :: ENABLED
      ensures authOut == old(authOut) + Flips(added, false)
    {
      var i := 0;
      while i < |added|
        invariant i <= |added|
        invariant ports == old(ports) + map port | port in Elements(added[..i]) :: ENABLED
        invariant authOut == old(authOut) + Flips(added[..i], false)
      {
        FlipsSnoc(old(authOut), added[..i], added[i], false);
        ElementsSnoc(added[..i], added[i]);
        assert added[..i + 1] == added[..i] + [added[i]];
        ports := ports[added[i] := ENABLED];
        authOut := authOut + [(added[i], false)];
        i := i + 1;
      }
      assert added[..i] == added;
    }

    method HandleEvent(event: CtrlEvent, now: nat)
      requires Valid()
      modifies this
      ensures Valid() && log == Happened(old(log), event, now)
    {
      if event.port in ports {
        var state := ports[event.port];
        var flip;
        match event {
          case AuthSuccess(_, mac) =>
            flip := !state.authorized;
            state := state.(authorized := true, supplicant := Some(mac), lastAuth := Some(now));
          case AuthFailure(_, mac) =>
            flip := state.authorized;
            state := state.(failures := state.failures + 1, authorized := false,
                            supplicant := if mac == "" then None else Some(mac));
          case Logoff(_, _) =>
            flip := state.authorized;
            state := state.(authorized := false, supplicant := None);
        }
        ports := ports[event.port := state];
        if flip {
          authOut := authOut + [(event.port, state.authorized)];
        }
      }
      log := Happened(log, event, now);
    }

    method RequestReauth(port: string) returns (enabled: bool)
      requires Valid()
      modifies this
      ensures Valid() && enabled <==> port in old(config).ports
      ensures log == if enabled then Sent(Reauthed(old(log), port), |old(pending)|) else Reauthed(old(log), port)
    {
      PortsAreConfigured(log);
      enabled := port in ports;
      log := Reauthed(log, port);
      if enabled {
        pending := pending + [Reauth(port)];
        Deliver(|pending| - 1);
      }
    }
  }

  lemma {:induction false} FlipsSnoc(out: seq<Flip>, ports: seq<string>, port: string, authorized: bool)
    ensures out + Flips(ports, authorized) + [(port, authorized)] == out + Flips(ports + [port], authorized)
    decreases |ports|
  {
    if ports == [] {
      assert ports + [port] == [port];
    } else {
      var first := (ports[0], authorized);
      FlipsSnoc(out + [first], ports[1..], port, authorized);
      assert (ports + [port])[1..] == ports[1..] + [port];
      Assoc(out, [first], Flips(ports[1..], authorized));
      Assoc(out, [first], Flips(ports[1..] + [port], authorized));
    }
  }

  /** The ports of a set, one after the other. */
  method Ordered(ports: set<string>) returns (order: seq<string>)
    ensures Distinct(order) && Elements(order) == ports
  {
    order := [];
    var left := ports;
    while left != {}
      invariant left <= ports && Distinct(order) && Elements(order) == ports - left
      decreases |left|
    {
      var port :| port in left;
      assert port !in Elements(order);
      ElementsSnoc(order, port);
      order, left := order + [port], left - {port};
    }
  }
}
