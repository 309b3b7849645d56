/**
 * The port diff that goes to the dataplane (hemlock-mgmtd, intents.rs): each field travels
 * only when it moved, and a removed pin travels as its "stop forcing" value.
 */
module PortDiff {
  import opened Basics

  datatype Duplex = Full | Half

  datatype PortIntent = PortIntent(
    adminUp: Option<bool>,
    description: Option<string>,
    speed: Option<nat>,
    duplex: Option<Duplex>,
    mtu: Option<nat>)

  const UNSET := PortIntent(None, None, None, None, None)

  datatype PortChange = PortChange(
    name: string,
    adminUp: Option<bool>,
    description: Option<string>,
    speed: Option<nat>,
    duplex: Option<string>,
    mtu: Option<nat>)

  predicate IsEmpty(c: PortChange) {
    c.adminUp.None? && c.description.None? && c.speed.None? && c.duplex.None? && c.mtu.None?
  }

  // ---------------------------------------------------------------- the dataplane

  /** What a port runs with; zero and `auto` force nothing. */
  datatype PortState = PortState(adminUp: bool, description: string, speed: nat, duplex: string, mtu: nat)

  function Or<T>(o: Option<T>, otherwise: T): T {
    if o.Some? then o.value else otherwise
  }

  function Word(d: Option<Duplex>): string {
    if d.None? then "auto" else if d.value == Full then "full" else "half"
  }

  /** The state an intent asks for. */
  function Effective(i: PortIntent): PortState {
    PortState(Or(i.adminUp, true), Or(i.description, ""), Or(i.speed, 0), Word(i.duplex), Or(i.mtu, 0))
  }

  function Apply(s: PortState, c: PortChange): PortState {
    PortState(
      Or(c.adminUp, s.adminUp), Or(c.description, s.description), Or(c.speed, s.speed),
      Or(c.duplex, s.duplex), Or(c.mtu, s.mtu))
  }

  type Dataplane = map<string, PortState>

  function ApplyAll(d: Dataplane, changes: seq<PortChange>): Dataplane
    decreases |changes|
  {
    if changes == [] then d else ApplyAll(ApplyOne(d, changes[0]), changes[1..])
  }

  function ApplyOne(d: Dataplane, c: PortChange): Dataplane {
    d[c.name := Apply(At(d, c.name), c)]
  }

  /** A port nobody configured runs with the defaults. */
  function At(d: Dataplane, name: string): PortState {
    if name in d then d[name] else Effective(UNSET)
  }

  function IntentOf(m: map<string, PortIntent>, name: string): PortIntent {
    if name in m then m[name] else UNSET
  }

  // ---------------------------------------------------------------- one port

  function AdminDelta(want: Option<bool>, now: Option<bool>): Option<bool> {
    match (want, now)
    case (Some(w), Some(n)) => if w == n then None else Some(w)
    case (Some(w), None) => Some(w)
    case (None, Some(false)) => Some(true)
    case (None, _) => None
  }

  function DescriptionDelta(want: Option<string>, now: Option<string>): Option<string> {
    match (want, now)
    case (Some(w), Some(n)) => if w == n then None else Some(w)
    case (Some(w), None) => Some(w)
    case (None, Some(n)) => if n != "" then Some("") else None
    case (None, None) => None
  }

  function Delta(name: string, want: PortIntent, now: PortIntent): PortChange {
    PortChange(
      name,
      AdminDelta(want.adminUp, now.adminUp),
      DescriptionDelta(want.description, now.description),
      if want.speed != now.speed then Some(Or(want.speed, 0)) else None,
      if want.duplex != now.duplex then Some(Word(want.duplex)) else None,
      if want.mtu != now.mtu then Some(Or(want.mtu, 0)) else None)
  }

  /** Silent differences: a default spelled out before and gone now. */
  predicate Silent(want: PortIntent, now: PortIntent) {
    (want.adminUp == now.adminUp || (want.adminUp == None && now.adminUp == Some(true))) &&
    (want.description == now.description || (want.description == None && now.description == Some(""))) &&
    want.speed == now.speed && want.duplex == now.duplex && want.mtu == now.mtu
  }

  /** A change takes the running state to the wanted one, and is empty exactly on silent differences. */
  lemma DeltaReaches(name: string, want: PortIntent, now: PortIntent)
    ensures Apply(Effective(now), Delta(name, want, now)) == Effective(want)
    ensures IsEmpty(Delta(name, want, now)) <==> Silent(want, now)
  {
  }

  // ---------------------------------------------------------------- the whole diff

  ghost predicate Listed(changes: seq<PortChange>, name: string) {
    exists i :: 0 <= i < |changes| && changes[i].name == name
  }

  ghost predicate DistinctNames(changes: seq<PortChange>) {
    forall i, j :: 0 <= i < j < |changes| ==> changes[i].name != changes[j].name
  }

  function DeltaAt(now: map<string, PortIntent>, want: map<string, PortIntent>, name: string): PortChange {
    Delta(name, IntentOf(want, name), IntentOf(now, name))
  }

  /** One change for every port of `names` that has something to say. */
  ghost predicate IsDiffOn(
      changes: seq<PortChange>, now: map<string, PortIntent>, want: map<string, PortIntent>, names: set<string>)
  {
    DistinctNames(changes) &&
    (forall c <- changes :: c.name in names && c == DeltaAt(now, want, c.name) && !IsEmpty(c)) &&
    forall name <- names :: IsEmpty(DeltaAt(now, want, name)) || Listed(changes, name)
  }

  ghost predicate IsDiff(changes: seq<PortChange>, now: map<string, PortIntent>, want: map<string, PortIntent>) {
    IsDiffOn(changes, now, want, now.Keys + want.Keys)
  }

  lemma {:induction false} ApplyAllAt(d: Dataplane, changes: seq<PortChange>, name: string)
    requires DistinctNames(changes)
    ensures !Listed(changes, name) ==> At(ApplyAll(d, changes), name) == At(d, name)
    ensures forall i :: 0 <= i < |changes| && changes[i].name == name ==>
      At(ApplyAll(d, changes), name) == Apply(At(d, name), changes[i])
    decreases |changes|
  {
    if changes != [] {
      var rest := changes[1..];
      ApplyAllAt(ApplyOne(d, changes[0]), rest, name);
      assert forall i :: 0 < i < |changes| ==> changes[i] == rest[i - 1];
      if Listed(rest, name) {
        var i :| 0 <= i < |rest| && rest[i].name == name;
        assert changes[i + 1].name == name;
      }
    }
  }

  /** Applying the diff to a dataplane that runs the old intents leaves it running the new ones. */
  lemma DiffReaches(
      changes: seq<PortChange>, now: map<string, PortIntent>, want: map<string, PortIntent>, d: Dataplane, name: string)
    requires IsDiff(changes, now, want)
    requires At(d, name) == Effective(IntentOf(now, name))
    ensures At(ApplyAll(d, changes), name) == Effective(IntentOf(want, name))
  {
    ApplyAllAt(d, changes, name);
    DeltaReaches(name, IntentOf(want, name), IntentOf(now, name));
    if Listed(changes, name) {
      var i :| 0 <= i < |changes| && changes[i].name == name;
      assert changes[i] in changes;
    } else {
      assert IsEmpty(DeltaAt(now, want, name));
    }
  }

  /** Nothing is sent exactly when every difference is silent; equal intents send nothing. */
  lemma EmptyIff(changes: seq<PortChange>, now: map<string, PortIntent>, want: map<string, PortIntent>)
    requires IsDiff(changes, now, want)
    ensures changes == [] <==> forall name <- now.Keys + want.Keys :: Silent(IntentOf(want, name), IntentOf(now, name))
    ensures now == want ==> changes == []
  {
    forall name ensures IsEmpty(DeltaAt(now, want, name)) <==> Silent(IntentOf(want, name), IntentOf(now, name)) {
      DeltaReaches(name, IntentOf(want, name), IntentOf(now, name));
    }
    if changes != [] {
      assert changes[0] in changes;
    }
  }

  // ---------------------------------------------------------------- the two loops

  lemma DiffMore(
      changes: seq<PortChange>, now: map<string, PortIntent>, want: map<string, PortIntent>,
      names: set<string>, name: string)
    requires IsDiffOn(changes, now, want, names) && name !in names
    ensures var c := DeltaAt(now, want, name);
      IsDiffOn(if IsEmpty(c) then changes else changes + [c], now, want, names + {name})
  {
    var c := DeltaAt(now, want, name);
    var more := changes + [c];
    if !IsEmpty(c) {
      assert more[|changes|].name == name;
      forall other | other in names && Listed(changes, other) ensures Listed(more, other) {
        var i :| 0 <= i < |changes| && changes[i].name == other;
        assert more[i].name == other;
      }
      forall i | 0 <= i < |changes| ensures changes[i].name != name { assert changes[i] in changes; }
    }
  }

  method DiffPorts(now: map<string, PortIntent>, want: map<string, PortIntent>) returns (changes: seq<PortChange>)
    ensures IsDiff(changes, now, want)
  {
    changes := [];
    ghost var seen: set<string> := {};
    var left := want.Keys;
    while left != {}
      invariant seen !! left && seen + left == want.Keys && IsDiffOn(changes, now, want, seen)
      decreases left
    {
      var name :| name in left;
      DiffMore(changes, now, want, seen, name);
      var change := Delta(name, want[name], IntentOf(now, name));
      if !IsEmpty(change) {
        changes := changes + [change];
      }
      left, seen := left - {name}, seen + {name};
    }
    left := now.Keys;
    while left != {}
      invariant left <= now.Keys && seen == want.Keys + (now.Keys - left) && IsDiffOn(changes, now, want, seen)
      decreases left
    {
      var name :| name in left;
      if name !in want {
        DiffMore(changes, now, want, seen, name);
        var change := Delta(name, UNSET, now[name]);
        if !IsEmpty(change) {
          changes := changes + [change];
        }
      }
      left, seen := left - {name}, seen + {name};
    }
    assert seen == now.Keys + want.Keys;
  }
}
