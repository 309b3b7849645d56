/**
 * Three slices of the commit validator (hemlock-mgmtd, intents.rs): channel groups, mirror
 * sessions and egress queues, each against what it is meant to accept.
 */
module Validators {
  import opened Basics
  import opened LagDiff

  /** What these checks look at: group and mode, own switchport, own address. */
  datatype PortView = PortView(group: Option<(nat, Mode)>, switchport: bool, addressed: bool)

  // ---------------------------------------------------------------- channel groups

  const MAX_MEMBERS := 8

  predicate Joins(port: PortView, group: nat) {
    port.group.Some? && port.group.value.0 == group
  }

  function MembersIn(ports: map<string, PortView>, names: set<string>, group: nat): set<string> {
    set name <- names | name in ports && Joins(ports[name], group)
  }

  predicate SameMode(a: PortView, b: PortView) {
    a.group.Some? && b.group.Some? && a.group.value.0 == b.group.value.0 ==> a.group.value.1 == b.group.value.1
  }

  /** No member has a switchport of its own, and the members of a group run one mode. */
  ghost predicate MembersOk(ports: map<string, PortView>, names: set<string>) {
    (forall name <- names :: name in ports && ports[name].group.Some? ==> !ports[name].switchport) &&
    forall a <- names, b <- names :: a in ports && b in ports ==> SameMode(ports[a], ports[b])
  }

  ghost predicate GroupsOk(ports: map<string, PortView>) {
    MembersOk(ports, ports.Keys) && forall group :: |MembersIn(ports, ports.Keys, group)| <= MAX_MEMBERS
  }

  lemma MembersMore(ports: map<string, PortView>, names: set<string>, name: string, group: nat)
    requires name in ports && name !in names
    ensures MembersIn(ports, names + {name}, group) ==
      if Joins(ports[name], group) then MembersIn(ports, names, group) + {name} else MembersIn(ports, names, group)
  {
  }

  /** The first member and the mode of every group so far. */
  ghost predicate Moded(ports: map<string, PortView>, names: set<string>, modes: map<nat, (string, Mode)>) {
    (forall group <- modes ::
      modes[group].0 in ports && ports[modes[group].0].group == Some((group, modes[group].1))) &&
    forall name <- names :: name in ports && ports[name].group.Some? ==>
      ports[name].group.value.0 in modes && modes[ports[name].group.value.0].1 == ports[name].group.value.1
  }

  function SizeOf(sizes: map<nat, nat>, group: nat): nat {
    if group in sizes then sizes[group] else 0
  }

  ghost predicate Sized(ports: map<string, PortView>, names: set<string>, sizes: map<nat, nat>) {
    forall group :: SizeOf(sizes, group) == |MembersIn(ports, names, group)|
  }

  function SizesAfter(sizes: map<nat, nat>, port: PortView): map<nat, nat> {
    if port.group.None? then sizes
    else sizes[port.group.value.0 := SizeOf(sizes, port.group.value.0) + 1]
  }

  lemma SizedMore(ports: map<string, PortView>, names: set<string>, sizes: map<nat, nat>, name: string)
    requires Sized(ports, names, sizes) && name in ports && name !in names
    ensures Sized(ports, names + {name}, SizesAfter(sizes, ports[name]))
  {
    forall group ensures SizeOf(SizesAfter(sizes, ports[name]), group) == |MembersIn(ports, names + {name}, group)| {
      MembersMore(ports, names, name, group);
    }
  }

  /** One port of the loop; not `ok` when it breaks a rule, alone or with a port before it. */
  method TallyPort(
      name: string, ports: map<string, PortView>,
      before: map<nat, (string, Mode)>, counts: map<nat, nat>, ghost names: set<string>)
    returns (ok: bool, modes: map<nat, (string, Mode)>, sizes: map<nat, nat>)
    requires name in ports && name !in names && Moded(ports, names, before)
    ensures !ok ==> !MembersOk(ports, ports.Keys)
    ensures ok ==> Moded(ports, names + {name}, modes) && sizes == SizesAfter(counts, ports[name])
    ensures ok && ports[name].group.Some? ==> !ports[name].switchport
  {
    ok, modes, sizes := true, before, counts;
    if ports[name].group.Some? {
      var (group, mode) := ports[name].group.value;
      if ports[name].switchport {
        return false, modes, sizes;
      }
      sizes := sizes[group := SizeOf(sizes, group) + 1];
      if group in modes {
        if modes[group].1 != mode {
          assert !SameMode(ports[modes[group].0], ports[name]);
          return false, modes, sizes;
        }
      } else {
        modes := modes[group := (name, mode)];
      }
    }
  }

  /** Every counted group is small enough. */
  method CheckSizes(sizes: map<nat, nat>) returns (ok: bool)
    ensures ok <==> forall group <- sizes :: sizes[group] <= MAX_MEMBERS
  {
    var left := sizes.Keys;
    while left != {}
      invariant left <= sizes.Keys && forall group | group in sizes && group !in left :: sizes[group] <= MAX_MEMBERS
      decreases left
    {
      var group :| group in left;
      if sizes[group] > MAX_MEMBERS {
        return false;
      }
      left := left - {group};
    }
    ok := true;
  }

  /** Accepts exactly groups of at most eight members of one mode, none with its own switchport. */
  method ValidateGroups(ports: map<string, PortView>) returns (ok: bool)
    ensures ok <==> GroupsOk(ports)
  {
    var modes: map<nat, (string, Mode)>, sizes: map<nat, nat> := map[], map[];
    ghost var names: set<string> := {};
    assert forall group :: MembersIn(ports, names, group) == {};
    var left := ports.Keys;
    while left != {}
      invariant names !! left && names + left == ports.Keys
      invariant Moded(ports, names, modes) && Sized(ports, names, sizes)
      invariant forall name <- names :: ports[name].group.Some? ==> !ports[name].switchport
      decreases left
    {
      var name :| name in left;
      SizedMore(ports, names, sizes, name);
      ok, modes, sizes := TallyPort(name, ports, modes, sizes, names);
      if !ok {
        return;
      }
      left, names := left - {name}, names + {name};
    }
    assert names == ports.Keys;
    assert MembersOk(ports, ports.Keys);
    ok := CheckSizes(sizes);
    SizesDecide(ports, sizes);
  }

  lemma SizesDecide(ports: map<string, PortView>, sizes: map<nat, nat>)
    requires Sized(ports, ports.Keys, sizes)
    ensures (forall group <- sizes :: sizes[group] <= MAX_MEMBERS) <==>
      forall group :: |MembersIn(ports, ports.Keys, group)| <= MAX_MEMBERS
  {
    if group :| group in sizes && sizes[group] > MAX_MEMBERS {
      assert SizeOf(sizes, group) == |MembersIn(ports, ports.Keys, group)|;
    }
  }

  // ---------------------------------------------------------------- egress queues

  const QUEUE_COUNT := 8

  type QueueIndex = x: int | 0 <= x < QUEUE_COUNT

  datatype Queue = Queue(strict: bool, weight: Option<nat>, shape: Option<nat>)

  /** Strict priority or a weight, not both; a queue shaper within the port shaper. */
  predicate QueueOk(q: Queue, portShape: Option<nat>) {
    !(q.strict && q.weight.Some?) && (q.shape.Some? && portShape.Some? ==> q.shape.value <= portShape.value)
  }

  function Stricts(queues: map<QueueIndex, Queue>): set<int> {
    set i <- queues | queues[i].strict :: i as int
  }

  /** With a queue, every higher one. */
  predicate UpwardClosed(s: set<int>) {
    forall i <- s, j <- Between(0, QUEUE_COUNT - 1) :: i < j ==> j in s
  }

  ghost predicate QosOk(queues: map<QueueIndex, Queue>, portShape: Option<nat>) {
    (forall i <- queues :: QueueOk(queues[i], portShape)) && UpwardClosed(Stricts(queues))
  }

  /** What the validator compares with: as many queues, from the top down. */
  function TopQueues(count: nat): set<int> {
    Between(QUEUE_COUNT - count, QUEUE_COUNT - 1)
  }

  lemma {:induction false} TopIsClosed(s: set<int>, low: nat)
    requires s <= Between(low, QUEUE_COUNT - 1) && low <= QUEUE_COUNT
    requires forall i <- s, j <- Between(low, QUEUE_COUNT - 1) :: i < j ==> j in s
    ensures s == TopQueues(|s|)
    decreases QUEUE_COUNT - low
  {
    if low in s {
      assert s == Between(low, QUEUE_COUNT - 1);
      BetweenSize(low, QUEUE_COUNT - 1);
    } else if low < QUEUE_COUNT {
      TopIsClosed(s, low + 1);
    }
  }

  /** The comparison with the top queues is upward closure. */
  lemma TopIff(s: set<int>)
    requires s <= Between(0, QUEUE_COUNT - 1)
    ensures s == TopQueues(|s|) <==> UpwardClosed(s)
  {
    if UpwardClosed(s) {
      TopIsClosed(s, 0);
    }
  }

  method ValidateQos(queues: map<QueueIndex, Queue>, portShape: Option<nat>) returns (ok: bool)
    ensures ok <==> QosOk(queues, portShape)
  {
    var strict: set<int> := {};
    var left := queues.Keys;
    while left != {}
      invariant left <= queues.Keys
      invariant forall i | i in queues && i !in left :: QueueOk(queues[i], portShape)
      invariant strict == set i <- queues | i !in left && queues[i].strict :: i as int
      decreases left
    {
      var i :| i in left;
      var queue := queues[i];
      if queue.strict && queue.weight.Some? {
        return false;
      }
      if queue.strict {
        strict := strict + {i as int};
      }
      if queue.shape.Some? && portShape.Some? && queue.shape.value > portShape.value {
        return false;
      }
      left := left - {i};
    }
    assert strict == Stricts(queues);
    TopIff(strict);
    ok := strict == {} || strict == TopQueues(|strict|);
  }

  // ---------------------------------------------------------------- mirror sessions

  datatype Direction = Rx | Tx | Both

  datatype Mirror = Mirror(sources: map<string, Direction>, destination: Option<string>)

  type Sessions = map<nat, Mirror>

  /** One source of one session. */
  type Source = (nat, string)

  predicate IsSource(sessions: Sessions, k: Source) {
    k.0 in sessions && k.1 in sessions[k.0].sources
  }

  /** Does a source listen in a direction, `rx` or else `tx`? */
  predicate Hears(sessions: Sessions, k: Source, rx: bool) {
    IsSource(sessions, k) && sessions[k.0].sources[k.1] != if rx then Tx else Rx
  }

  /** No port is a source of two sessions in one direction. */
  ghost predicate OneSession(sessions: Sessions) {
    forall k, l, rx :: Hears(sessions, k, rx) && Hears(sessions, l, rx) && k.1 == l.1 ==> k.0 == l.0
  }

  /** A destination is no source, no member and has no address. */
  ghost predicate DestinationOk(sessions: Sessions, ports: map<string, PortView>, dest: string) {
    (forall session <- sessions :: dest !in sessions[session].sources) &&
    (dest in ports ==> ports[dest].group.None? && !ports[dest].addressed)
  }

  ghost predicate MirrorsOk(sessions: Sessions, ports: map<string, PortView>) {
    OneSession(sessions) &&
    forall session <- sessions :: sessions[session].destination.Some? ==>
      DestinationOk(sessions, ports, sessions[session].destination.value)
  }

  /** The sources of one direction seen so far, each with its session. */
  ghost predicate Claimed(sessions: Sessions, done: set<Source>, claims: map<string, nat>, rx: bool) {
    (forall port <- claims :: Hears(sessions, (claims[port], port), rx)) &&
    forall k <- done :: Hears(sessions, k, rx) ==> k.1 in claims && claims[k.1] == k.0
  }

  method Claim(
      sessions: Sessions, k: Source, before: map<string, nat>, rx: bool, ghost done: set<Source>)
    returns (ok: bool, claims: map<string, nat>)
    requires IsSource(sessions, k) && Claimed(sessions, done, before, rx)
    ensures !ok ==> !OneSession(sessions)
    ensures ok ==> Claimed(sessions, done + {k}, claims, rx)
  {
    ok, claims := true, before;
    if Hears(sessions, k, rx) {
      if k.1 in claims && claims[k.1] != k.0 {
        assert Hears(sessions, (claims[k.1], k.1), rx) && (claims[k.1], k.1).1 == k.1;
        return false, claims;
      }
      claims := claims[k.1 := k.0];
    }
  }

  function SourcesOf(sessions: Sessions, names: set<nat>): set<Source> {
    set session <- names, port <- (if session in sessions then sessions[session].sources.Keys else {}) ::
      (session, port)
  }

  method ClaimSession(
      sessions: Sessions, session: nat, beforeRx: map<string, nat>, beforeTx: map<string, nat>, ghost done: set<Source>)
    returns (ok: bool, rx: map<string, nat>, tx: map<string, nat>)
    requires session in sessions && Claimed(sessions, done, beforeRx, true) && Claimed(sessions, done, beforeTx, false)
    ensures !ok ==> !OneSession(sessions)
    ensures ok ==> Claimed(sessions, done + SourcesOf(sessions, {session}), rx, true)
    ensures ok ==> Claimed(sessions, done + SourcesOf(sessions, {session}), tx, false)
  {
    rx, tx := beforeRx, beforeTx;
    var left := sessions[session].sources.Keys;
    ghost var seen := done;
    while left != {}
      invariant left <= sessions[session].sources.Keys
      invariant forall k :: k in seen <==> k in done || (k.0 == session && IsSource(sessions, k) && k.1 !in left)
      invariant Claimed(sessions, seen, rx, true) && Claimed(sessions, seen, tx, false)
      decreases left
    {
      var port :| port in left;
      ok, rx := Claim(sessions, (session, port), rx, true, seen);
      if !ok { return; }
      ok, tx := Claim(sessions, (session, port), tx, false, seen);
      if !ok { return; }
      left, seen := left - {port}, seen + {(session, port)};
    }
    assert seen == done + SourcesOf(sessions, {session});
    ok := true;
  }

  lemma ClaimedOnce(sessions: Sessions, rx: map<string, nat>, tx: map<string, nat>)
    requires Claimed(sessions, SourcesOf(sessions, sessions.Keys), rx, true)
    requires Claimed(sessions, SourcesOf(sessions, sessions.Keys), tx, false)
    ensures OneSession(sessions)
    ensures forall port :: port in rx || port in tx <==> exists session <- sessions :: port in sessions[session].sources
  {
    var all := SourcesOf(sessions, sessions.Keys);
    forall k | IsSource(sessions, k) ensures k in all {
    }
    forall port ensures port in rx || port in tx <==> exists session <- sessions :: port in sessions[session].sources {
      if port in rx { assert Hears(sessions, (rx[port], port), true); }
      if port in tx { assert Hears(sessions, (tx[port], port), false); }
      if session :| session in sessions && port in sessions[session].sources {
        assert (session, port) in all;
        assert Hears(sessions, (session, port), true) || Hears(sessions, (session, port), false);
      }
    }
  }

  method ClaimSources(sessions: Sessions) returns (ok: bool, rx: map<string, nat>, tx: map<string, nat>)
    ensures ok <==> OneSession(sessions)
    ensures ok ==> forall port ::
      port in rx || port in tx <==> exists session <- sessions :: port in sessions[session].sources
  {
    rx, tx := map[], map[];
    ghost var names: set<nat> := {};
    assert SourcesOf(sessions, names) == {};
    var left := sessions.Keys;
    while left != {}
      invariant names !! left && names + left == sessions.Keys
      invariant Claimed(sessions, SourcesOf(sessions, names), rx, true)
      invariant Claimed(sessions, SourcesOf(sessions, names), tx, false)
      decreases left
    {
      var session :| session in left;
      ok, rx, tx := ClaimSession(sessions, session, rx, tx, SourcesOf(sessions, names));
      if !ok { return; }
      assert SourcesOf(sessions, names + {session}) == SourcesOf(sessions, names) + SourcesOf(sessions, {session});
      left, names := left - {session}, names + {session};
    }
    assert names == sessions.Keys;
    ClaimedOnce(sessions, rx, tx);
    ok := true;
  }

  /** Accepts exactly session sets without double sources and with idle destinations. */
  method ValidateMirrors(sessions: Sessions, ports: map<string, PortView>) returns (ok: bool)
    ensures ok <==> MirrorsOk(sessions, ports)
  {
    var rx, tx;
    ok, rx, tx := ClaimSources(sessions);
    if !ok { return; }
    var left := sessions.Keys;
    while left != {}
      invariant left <= sessions.Keys
      invariant forall session | session in sessions && session !in left && sessions[session].destination.Some? ::
        DestinationOk(sessions, ports, sessions[session].destination.value)
      decreases left
    {
      var session :| session in left;
      if sessions[session].destination.Some? {
        var dest := sessions[session].destination.value;
        if dest in rx || dest in tx {
          return false;
        }
        if dest in ports && (ports[dest].group.Some? || ports[dest].addressed) {
          return false;
        }
      }
      left := left - {session};
    }
  }
}
