/**
 * Kernel netdevs under the OS applier (hemlock-mgmtd, osapply.rs `apply_netdev`):
 * one device under a whole history of configurations, then every device of a box.
 */
module Netdevs {
  import opened Basics
  import opened OsApply

  datatype NetdevChange = NetdevChange(
    name: string,
    adminUp: Option<bool>,
    setAddress: Option<string>,
    delAddress: Option<string>,
    setMtu: Option<nat>)

  predicate IsNoop(c: NetdevChange) {
    c.adminUp.None? && c.setAddress.None? && c.delAddress.None? && c.setMtu.None?
  }

  /** MTU, old address, new address (which raises the link unless shut), admin state. */
  function ApplyNetdev(n: Netdev, c: NetdevChange): Netdev {
    var mtu := if c.setMtu.Some? then c.setMtu.value else n.mtu;
    var kept := if c.delAddress.Some? then n.addresses - {c.delAddress.value} else n.addresses;
    var addresses := if c.setAddress.Some? then kept + {c.setAddress.value} else kept;
    var raised := if c.setAddress.Some? && c.adminUp != Some(false) then true else n.up;
    Netdev(addresses, mtu, if c.adminUp.Some? then c.adminUp.value else raised)
  }

  function AdminDelta(want: Option<bool>, now: Option<bool>): Option<bool> {
    if want == now then None
    else if want.Some? then want
    else if now == Some(false) then Some(true)
    else None
  }

  /** One device's share of a commit. */
  function Delta(name: string, want: NetIntent, now: NetIntent, defaultMtu: nat): NetdevChange {
    NetdevChange(
      name,
      AdminDelta(want.adminUp, now.adminUp),
      if want.address == now.address then None else want.address,
      if want.address == now.address then None else now.address,
      if want.mtu == now.mtu then None else if want.mtu.Some? then want.mtu else Some(defaultMtu))
  }

  /** One device's share of the boot replay. */
  function Boot(name: string, want: NetIntent): NetdevChange {
    NetdevChange(name, want.adminUp, want.address, None, want.mtu)
  }

  // ---------------------------------------------------------------- one device, a whole history

  /** Boot with the first intent, then commit each of the others in turn. */
  function RunNetdev(initial: Netdev, history: seq<NetIntent>, defaultMtu: nat): Netdev
    requires history != []
    decreases |history|
  {
    var n := |history| - 1;
    if n == 0 then ApplyNetdev(initial, Boot("", history[0]))
    else ApplyNetdev(RunNetdev(initial, history[..n], defaultMtu), Delta("", history[n], history[n - 1], defaultMtu))
  }

  function Last(history: seq<NetIntent>): NetIntent
    requires history != []
  {
    history[|history| - 1]
  }

  function AddressSet(intent: NetIntent): set<string> {
    if intent.address.Some? then {intent.address.value} else {}
  }

  /** Every address some configuration of the history gave. */
  function Configured(history: seq<NetIntent>): set<string>
    decreases |history|
  {
    if history == [] then {} else AddressSet(Last(history)) + Configured(history[..|history| - 1])
  }

  /** Some configuration of the history gave an MTU. */
  predicate MtuGiven(history: seq<NetIntent>)
    decreases |history|
  {
    history != [] && (Last(history).mtu.Some? || MtuGiven(history[..|history| - 1]))
  }

  /** The MTU after a history: the last one, the default in place of one removed, or the first. */
  function MtuAfter(history: seq<NetIntent>, first: nat, defaultMtu: nat): nat
    requires history != []
  {
    if Last(history).mtu.Some? then Last(history).mtu.value else if MtuGiven(history) then defaultMtu else first
  }

  /** A new address arrived while the device stayed shut, and it has stayed shut since. */
  predicate RaisedWhileShut(history: seq<NetIntent>)
    requires history != []
    decreases |history|
  {
    var n := |history| - 1;
    n > 0 && history[n].adminUp == Some(false) && history[n - 1].adminUp == Some(false) &&
    ((history[n].address.Some? && history[n].address != history[n - 1].address) || RaisedWhileShut(history[..n]))
  }

  /** Some configuration of the history said something about the link. */
  predicate Touched(history: seq<NetIntent>) {
    exists i :: 0 <= i < |history| && (history[i].adminUp.Some? || history[i].address.Some?)
  }

  lemma TouchedSnoc(history: seq<NetIntent>)
    requires history != []
    ensures Touched(history) <==>
            Touched(history[..|history| - 1]) || Last(history).adminUp.Some? || Last(history).address.Some?
  {
    var n := |history| - 1;
    if Touched(history[..n]) {
      var i :| 0 <= i < n && (history[..n][i].adminUp.Some? || history[..n][i].address.Some?);
      assert history[i].adminUp.Some? || history[i].address.Some?;
    }
    assert history[n] == Last(history);
    if Touched(history) {
      var i :| 0 <= i < |history| && (history[i].adminUp.Some? || history[i].address.Some?);
      if i < n { assert history[..n][i] == history[i]; }
    }
  }

  /** Where the link stands after a history. */
  function LinkAfter(history: seq<NetIntent>, wasUp: bool): bool
    requires history != []
  {
    match Last(history).adminUp
    case Some(true) => true
    case Some(false) => RaisedWhileShut(history)
    case None => Touched(history) || wasUp
  }

  lemma DeltaAddresses(
      n: Netdev, want: NetIntent, now: NetIntent, defaultMtu: nat, had: set<string>, given: set<string>)
    requires n.addresses == had - given + AddressSet(now) && AddressSet(now) <= given
    ensures ApplyNetdev(n, Delta("", want, now, defaultMtu)).addresses ==
      had - (AddressSet(want) + given) + AddressSet(want)
  {
    if want.address == now.address {
      assert AddressSet(want) == AddressSet(now);
    } else {
      var kept := if now.address.Some? then n.addresses - {now.address.value} else n.addresses;
      assert kept == n.addresses - AddressSet(now) == had - given;
    }
  }

  /** A device after a boot and any commits, whatever it was before. */
  lemma {:induction false} RunState(initial: Netdev, history: seq<NetIntent>, defaultMtu: nat)
    requires history != []
    ensures RunNetdev(initial, history, defaultMtu) == Netdev(
        initial.addresses - Configured(history) + AddressSet(Last(history)),
        MtuAfter(history, initial.mtu, defaultMtu),
        LinkAfter(history, initial.up))
    decreases |history|
  {
    TouchedSnoc(history);
    var n := |history| - 1;
    if n > 0 {
      var before := history[..n];
      RunState(initial, before, defaultMtu);
      assert Last(before) == history[n - 1];
      TouchedSnoc(before);
      assert AddressSet(Last(before)) <= Configured(before);
      DeltaAddresses(
        RunNetdev(initial, before, defaultMtu), history[n], history[n - 1], defaultMtu,
        initial.addresses, Configured(before));
      assert Last(before).mtu.Some? ==> MtuGiven(before);
      assert MtuGiven(history) == (Last(history).mtu.Some? || MtuGiven(before));
    } else {
      assert history == [Last(history)];
      OnlyLast(Last(history));
    }
  }

  /** The link needs: no address change inside the last shutdown, and, where nothing is
      configured any more, a link that was up from the start or never configured. */
  predicate LinkConverges(history: seq<NetIntent>, wasUp: bool)
    requires history != []
  {
    match Last(history).adminUp
    case Some(true) => true
    case Some(false) => !RaisedWhileShut(history)
    case None => Last(history).address.Some? || wasUp || !Touched(history)
  }

  /** An address the device had before the boot must not have been configured and taken away since. */
  predicate AddressesConverge(history: seq<NetIntent>, had: set<string>)
    requires history != []
  {
    had * Configured(history) <= AddressSet(Last(history))
  }

  /** An MTU that was given and taken away goes back to the default, which the boot MTU may not be. */
  predicate MtuConverges(history: seq<NetIntent>, first: nat, defaultMtu: nat)
    requires history != []
  {
    Last(history).mtu.Some? || first == defaultMtu || !MtuGiven(history)
  }

  /** A device ends as a boot of the last configuration leaves it, address, MTU and link each exactly when it can. */
  lemma NetdevConverges(initial: Netdev, history: seq<NetIntent>, defaultMtu: nat)
    requires history != []
    ensures var run, boot := RunNetdev(initial, history, defaultMtu), RunNetdev(initial, [Last(history)], defaultMtu);
      && (run.addresses == boot.addresses <==> AddressesConverge(history, initial.addresses))
      && (run.mtu == boot.mtu <==> MtuConverges(history, initial.mtu, defaultMtu))
      && (run.up == boot.up <==> LinkConverges(history, initial.up))
  {
    RunState(initial, history, defaultMtu);
    RunState(initial, [Last(history)], defaultMtu);
    TouchedSnoc([Last(history)]);
    TouchedSnoc(history);
    OnlyLast(Last(history));
    SameAddresses(initial.addresses, Configured(history), AddressSet(Last(history)));
    assert AddressSet(Last(history)) <= Configured(history);
  }

  lemma OnlyLast(last: NetIntent)
    ensures Configured([last]) == AddressSet(last) && MtuGiven([last]) == last.mtu.Some?
  {
    assert [last][..0] == [];
  }

  lemma SameAddresses(had: set<string>, given: set<string>, last: set<string>)
    requires last <= given
    ensures had - given + last == had - last + last <==> had * given <= last
  {
    if had - given + last == had - last + last {
      forall a | a in had * given ensures a in last {
        assert a in had - last + last;
      }
    }
  }

  /** A device that starts without addresses and with its kind's MTU can differ from a boot in its link only. */
  lemma FreshConverges(initial: Netdev, history: seq<NetIntent>, defaultMtu: nat)
    requires history != [] && initial.addresses == {} && initial.mtu == defaultMtu
    ensures var run, boot := RunNetdev(initial, history, defaultMtu), RunNetdev(initial, [Last(history)], defaultMtu);
      run.addresses == boot.addresses && run.mtu == boot.mtu
  {
    NetdevConverges(initial, history, defaultMtu);
  }

  /** Re-addressing a shut management port raises its link. */
  lemma ShutPortRaised(initial: Netdev, a: string, b: string)
    requires a != b
    ensures var history := [NetIntent(Some(false), Some(a), None), NetIntent(Some(false), Some(b), None)];
      RunNetdev(initial, history, DEFAULT_MTU).up && !RunNetdev(initial, [Last(history)], DEFAULT_MTU).up
  {
    var history := [NetIntent(Some(false), Some(a), None), NetIntent(Some(false), Some(b), None)];
    RunState(initial, history, DEFAULT_MTU);
    RunState(initial, [Last(history)], DEFAULT_MTU);
  }

  // ---------------------------------------------------------------- all devices of a box

  /** A command against a device that does not exist fails and changes nothing. */
  function ApplyTo(netdevs: map<string, Netdev>, dev: string, c: NetdevChange): map<string, Netdev> {
    if dev in netdevs then netdevs[dev := ApplyNetdev(netdevs[dev], c)] else netdevs
  }

  datatype Family = ManagementFamily | PortFamily | SviFamily

  /** The netdev behind a configured name: only the manifest's management port has another one. */
  function DeviceOf(p: Platform, family: Family, name: string): Option<string> {
    if family != ManagementFamily then Some(name) else if name == p.ifname then Some(p.dev) else None
  }

  /** The configured name behind a netdev. */
  function NameOf(p: Platform, family: Family, dev: string): Option<string> {
    if family != ManagementFamily then Some(dev) else if dev == p.dev then Some(p.ifname) else None
  }

  function ApplyFamily(netdevs: map<string, Netdev>, p: Platform, family: Family, changes: seq<NetdevChange>)
    : map<string, Netdev>
    decreases |changes|
  {
    if changes == [] then netdevs
    else
      var dev := DeviceOf(p, family, changes[0].name);
      ApplyFamily(if dev.None? then netdevs else ApplyTo(netdevs, dev.value, changes[0]), p, family, changes[1..])
  }

  /** What one family is asked to do: move from one configuration to another, or boot one. */
  datatype Plan =
    | DiffPlan(now: map<string, NetIntent>, want: map<string, NetIntent>, defaultMtu: nat)
    | BootPlan(want: map<string, NetIntent>)
  {
    function At(name: string): NetdevChange {
      match this
      case DiffPlan(now, want, defaultMtu) => Delta(name, IntentOf(want, name), IntentOf(now, name), defaultMtu)
      case BootPlan(want) => Boot(name, IntentOf(want, name))
    }
  }

  predicate Named(changes: seq<NetdevChange>, name: string) {
    exists i :: 0 <= i < |changes| && changes[i].name == name
  }

  /** Each name at most once, with the change the plan gives it. */
  ghost predicate Draws(changes: seq<NetdevChange>, plan: Plan) {
    (forall i, j :: 0 <= i < j < |changes| ==> changes[i].name != changes[j].name) &&
    (forall i :: 0 <= i < |changes| ==> changes[i] == plan.At(changes[i].name))
  }

  /** A name left out has nothing to change. */
  ghost predicate Lists(changes: seq<NetdevChange>, plan: Plan) {
    Draws(changes, plan) &&
    forall name {:trigger Named(changes, name)} :: IsNoop(plan.At(name)) || Named(changes, name)
  }

  lemma {:induction false} ApplyFamilyAt(
      netdevs: map<string, Netdev>, p: Platform, family: Family, changes: seq<NetdevChange>, plan: Plan, dev: string)
    requires Draws(changes, plan) && dev in netdevs
    ensures var name := NameOf(p, family, dev);
      Get(ApplyFamily(netdevs, p, family, changes), dev) ==
      Some(
        if name.Some? && Named(changes, name.value) then ApplyNetdev(netdevs[dev], plan.At(name.value))
        else netdevs[dev])
    decreases |changes|
  {
    if changes != [] {
      var rest := changes[1..];
      var target := DeviceOf(p, family, changes[0].name);
      var step := if target.None? then netdevs else ApplyTo(netdevs, target.value, changes[0]);
      ApplyFamilyAt(step, p, family, rest, plan, dev);
      var name := NameOf(p, family, dev);
      if name.Some? {
        assert changes[0].name == name.value ==> !Named(rest, name.value) && target == Some(dev);
        NamedTail(changes, name.value);
      }
    }
  }

  lemma NamedTail(changes: seq<NetdevChange>, name: string)
    requires changes != []
    ensures Named(changes, name) <==> changes[0].name == name || Named(changes[1..], name)
  {
    if Named(changes[1..], name) {
      var i :| 0 <= i < |changes[1..]| && changes[1..][i].name == name;
      assert changes[i + 1].name == name;
    }
    if Named(changes, name) && changes[0].name != name {
      var i :| 0 <= i < |changes| && changes[i].name == name;
      assert changes[1..][i - 1].name == name;
    }
  }

  lemma NoopChangesNothing(n: Netdev, c: NetdevChange)
    requires IsNoop(c)
    ensures ApplyNetdev(n, c) == n
  {
  }

  /** A listed family acts on every device independently. */
  lemma FamilyAt(
      netdevs: map<string, Netdev>, p: Platform, family: Family, changes: seq<NetdevChange>, plan: Plan, dev: string)
    requires Lists(changes, plan) && dev in netdevs
    ensures var name := NameOf(p, family, dev);
      Get(ApplyFamily(netdevs, p, family, changes), dev) ==
      Some(if name.Some? then ApplyNetdev(netdevs[dev], plan.At(name.value)) else netdevs[dev])
  {
    ApplyFamilyAt(netdevs, p, family, changes, plan, dev);
    var name := NameOf(p, family, dev);
    if name.Some? && !Named(changes, name.value) {
      NoopChangesNothing(netdevs[dev], plan.At(name.value));
    }
  }

  // ---------------------------------------------------------------- the loops that build the lists

  ghost predicate ListsSeen(changes: seq<NetdevChange>, plan: Plan, seen: set<string>) {
    Draws(changes, plan) &&
    (forall i :: 0 <= i < |changes| ==> changes[i].name in seen) &&
    forall name {:trigger Named(changes, name)} :: name in seen ==> IsNoop(plan.At(name)) || Named(changes, name)
  }

  lemma ListsSkip(changes: seq<NetdevChange>, plan: Plan, seen: set<string>, name: string)
    requires ListsSeen(changes, plan, seen) && IsNoop(plan.At(name))
    ensures ListsSeen(changes, plan, seen + {name})
  {
  }

  lemma ListsMore(changes: seq<NetdevChange>, plan: Plan, seen: set<string>, name: string)
    requires ListsSeen(changes, plan, seen) && name !in seen
    ensures ListsSeen(changes + [plan.At(name)], plan, seen + {name})
  {
    var more := changes + [plan.At(name)];
    assert more[|changes|].name == name;
    forall other | other in seen && !IsNoop(plan.At(other)) ensures Named(more, other) {
      assert Named(changes, other);
      var i :| 0 <= i < |changes| && changes[i].name == other;
      assert more[i].name == other;
    }
  }

  /** One loop over configured names; `skipEmpty` leaves out changes that do nothing. */
  method ListNames(before: seq<NetdevChange>, plan: Plan, names: set<string>, ghost seen: set<string>, skipEmpty: bool)
    returns (changes: seq<NetdevChange>)
    requires names !! seen && ListsSeen(before, plan, seen)
    ensures ListsSeen(changes, plan, seen + names)
  {
    changes := before;
    var left := names;
    ghost var done := seen;
    while left != {}
      invariant left <= names && done == seen + (names - left) && ListsSeen(changes, plan, done)
      decreases |left|
    {
      var name :| name in left;
      var change := plan.At(name);
      if skipEmpty && IsNoop(change) {
        ListsSkip(changes, plan, done, name);
      } else {
        ListsMore(changes, plan, done, name);
        changes := changes + [change];
      }
      left, done := left - {name}, done + {name};
    }
    assert done == seen + names;
  }

  /** Configured names first, then the vanished ones; nothing is sent for an unchanged name. */
  method DiffNetdevs(now: map<string, NetIntent>, want: map<string, NetIntent>, defaultMtu: nat)
    returns (changes: seq<NetdevChange>)
    ensures Lists(changes, DiffPlan(now, want, defaultMtu))
  {
    var plan := DiffPlan(now, want, defaultMtu);
    changes := ListNames([], plan, want.Keys, {}, true);
    changes := ListNames(changes, plan, now.Keys - want.Keys, {} + want.Keys, true);
    forall name ensures IsNoop(plan.At(name)) || Named(changes, name) {
      if name in now || name in want { assert name in {} + want.Keys + (now.Keys - want.Keys); }
    }
  }

  /** Boot visits every configured name; ports and SVIs only when something is set. */
  method ReplayNetdevs(want: map<string, NetIntent>, skipEmpty: bool) returns (changes: seq<NetdevChange>)
    ensures Lists(changes, BootPlan(want))
  {
    changes := ListNames([], BootPlan(want), want.Keys, {}, skipEmpty);
    forall name ensures IsNoop(BootPlan(want).At(name)) || Named(changes, name) {
      if name in want { assert name in {} + want.Keys; }
    }
  }
}
