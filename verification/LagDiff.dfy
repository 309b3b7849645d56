/**
 * Channel groups assembled from `Port-Channel` blocks and member ports, and their diff
 * (hemlock-mgmtd, intents.rs).
 */
module LagDiff {
  import opened Basics
  import opened KeyedDiff

  datatype Mode = Active | Passive | Static

  datatype Lacp = Lacp(rateFast: bool, priority: Option<nat>)

  const DEFAULT_LACP := Lacp(false, None)

  /** The settings of a group, of which nothing here depends; the default says nothing. */
  datatype LagIntent = LagIntent(settings: string)

  const DEFAULT_LAG := LagIntent("")

  datatype Port = Port(group: Option<(nat, Mode)>, lacp: Option<Lacp>)

  datatype Lag = Lag(intent: LagIntent, members: map<string, (Mode, Lacp)>)

  predicate InGroup(port: Port, group: nat) {
    port.group.Some? && port.group.value.0 == group
  }

  function Membership(port: Port): (Mode, Lacp)
    requires port.group.Some?
  {
    (port.group.value.1, if port.lacp.Some? then port.lacp.value else DEFAULT_LACP)
  }

  function Groups(ports: map<string, Port>): set<nat> {
    set name <- ports | ports[name].group.Some? :: ports[name].group.value.0
  }

  function Members(ports: map<string, Port>, group: nat): map<string, (Mode, Lacp)> {
    map name | name in ports && InGroup(ports[name], group) :: Membership(ports[name])
  }

  /** Every group that is configured or has a member, with exactly its members. */
  function LagState(ports: map<string, Port>, lags: map<nat, LagIntent>): map<nat, Lag> {
    map group | group in lags.Keys + Groups(ports) ::
      Lag(if group in lags then lags[group] else DEFAULT_LAG, Members(ports, group))
  }

  lemma GroupsIff(ports: map<string, Port>, group: nat)
    ensures group in Groups(ports) <==> exists name <- ports :: InGroup(ports[name], group)
  {
  }

  lemma GroupsMore(ports: map<string, Port>, name: string, port: Port, group: nat)
    requires name !in ports
    ensures group in Groups(ports[name := port]) <==> group in Groups(ports) || InGroup(port, group)
  {
    var after := ports[name := port];
    GroupsIff(ports, group);
    GroupsIff(after, group);
    if InGroup(port, group) {
      assert after[name] == port;
    }
    if group in Groups(ports) {
      var other :| other in ports && InGroup(ports[other], group);
      assert after[other] == ports[other];
    }
  }

  lemma MembersMore(ports: map<string, Port>, name: string, port: Port, group: nat)
    requires name !in ports
    ensures Members(ports[name := port], group) ==
      if InGroup(port, group) then Members(ports, group)[name := Membership(port)] else Members(ports, group)
  {
  }

  lemma NoMembers(ports: map<string, Port>, group: nat)
    requires group !in Groups(ports)
    ensures Members(ports, group) == map[]
  {
    GroupsIff(ports, group);
  }

  function LagOr(out: map<nat, Lag>, group: nat): Lag {
    if group in out then out[group] else Lag(DEFAULT_LAG, map[])
  }

  /** One port more, in place. */
  function Joined(out: map<nat, Lag>, name: string, port: Port): map<nat, Lag> {
    if port.group.None? then out
    else
      var lag := LagOr(out, port.group.value.0);
      out[port.group.value.0 := lag.(members := lag.members[name := Membership(port)])]
  }

  lemma StateAt(ports: map<string, Port>, lags: map<nat, LagIntent>, name: string, port: Port, group: nat)
    requires name !in ports
    ensures Get(LagState(ports[name := port], lags), group) == Get(Joined(LagState(ports, lags), name, port), group)
  {
    GroupsMore(ports, name, port, group);
    MembersMore(ports, name, port, group);
    if group !in Groups(ports) {
      NoMembers(ports, group);
    }
  }

  lemma StateMore(ports: map<string, Port>, lags: map<nat, LagIntent>, name: string, port: Port)
    requires name !in ports
    ensures LagState(ports[name := port], lags) == Joined(LagState(ports, lags), name, port)
  {
    forall group
      ensures Get(LagState(ports[name := port], lags), group) == Get(Joined(LagState(ports, lags), name, port), group)
    {
      StateAt(ports, lags, name, port, group);
    }
    SameMap(LagState(ports[name := port], lags), Joined(LagState(ports, lags), name, port));
  }

  method Join(before: map<nat, Lag>, name: string, port: Port) returns (out: map<nat, Lag>)
    ensures out == Joined(before, name, port)
  {
    out := before;
    if port.group.Some? {
      var group := port.group.value.0;
      if group !in out {
        out := out[group := Lag(DEFAULT_LAG, map[])];
      }
      out := out[group := out[group].(members := out[group].members[name := Membership(port)])];
    }
  }

  function Configured(lags: map<nat, LagIntent>): map<nat, Lag> {
    map group | group in lags :: Lag(lags[group], map[])
  }

  lemma StateEmpty(lags: map<nat, LagIntent>)
    ensures LagState(map[], lags) == Configured(lags)
  {
    assert Groups(map[]) == {};
  }

  method BuildLags(ports: map<string, Port>, lags: map<nat, LagIntent>) returns (out: map<nat, Lag>)
    ensures out == LagState(ports, lags)
  {
    out := Configured(lags);
    StateEmpty(lags);
    ghost var done: map<string, Port> := map[];
    var left := ports.Keys;
    while left != {}
      invariant done.Keys !! left && done.Keys + left == ports.Keys && forall name <- done :: done[name] == ports[name]
      invariant out == LagState(done, lags)
      decreases left
    {
      var name :| name in left;
      StateMore(done, lags, name, ports[name]);
      out := Join(out, name, ports[name]);
      left, done := left - {name}, done[name := ports[name]];
    }
    assert done == ports;
  }

  /** A port is a member of its own group and of no other. */
  lemma MemberIff(ports: map<string, Port>, lags: map<nat, LagIntent>, name: string, group: nat)
    ensures group in LagState(ports, lags) && name in LagState(ports, lags)[group].members
      <==> name in ports && InGroup(ports[name], group)
  {
  }

  method DiffLags(
      nowPorts: map<string, Port>, nowLags: map<nat, LagIntent>,
      wantPorts: map<string, Port>, wantLags: map<nat, LagIntent>)
    returns (changes: seq<Change<nat, Lag>>)
    ensures IsDiff(changes, LagState(nowPorts, nowLags), LagState(wantPorts, wantLags))
    ensures PatchAll(LagState(nowPorts, nowLags), changes) == LagState(wantPorts, wantLags)
    ensures changes == [] <==> LagState(nowPorts, nowLags) == LagState(wantPorts, wantLags)
  {
    var now := BuildLags(nowPorts, nowLags);
    var want := BuildLags(wantPorts, wantLags);
    changes := Diff(now, want);
    DiffReaches(changes, now, want);
    EmptyIff(changes, now, want);
  }
}
