/**
 * Storm control: a level per interface and kind of traffic, and its diff
 * (hemlock-mgmtd, intents.rs).
 */
module StormDiff {
  import opened Basics
  import opened Decimal
  import opened KeyedDiff

  datatype Kind = Broadcast | Multicast | UnknownUnicast

  type Levels = map<Kind, string>
  type State = map<string, Levels>
  type Key = (string, Kind)

  // ---------------------------------------------------------------- the state of all interfaces

  function LagName(group: nat): string {
    "Port-Channel" + Print(group)
  }

  lemma LagNameInjective(a: nat, b: nat)
    requires LagName(a) == LagName(b)
    ensures a == b
  {
    assert LagName(a)[12..] == Print(a) && LagName(b)[12..] == Print(b);
    PrintValue(a);
    PrintValue(b);
  }

  predicate NoEmpty(s: State) {
    forall name <- s :: s[name] != map[]
  }

  ghost predicate NamesLag(lags: map<nat, Levels>, name: string) {
    exists group <- lags :: lags[group] != map[] && LagName(group) == name
  }

  /** Interfaces with some level; a group shows under its `Port-Channel` name. */
  ghost predicate IsStormState(ports: map<string, Levels>, lags: map<nat, Levels>, s: State) {
    NoEmpty(s) &&
    (forall group <- lags :: lags[group] != map[] ==> Get(s, LagName(group)) == Some(lags[group])) &&
    (forall name <- ports :: ports[name] != map[] && !NamesLag(lags, name) ==> Get(s, name) == Some(ports[name])) &&
    (forall name <- s :: (name in ports && ports[name] != map[]) || NamesLag(lags, name))
  }

  /** One configuration has one storm state. */
  lemma StormStateUnique(ports: map<string, Levels>, lags: map<nat, Levels>, a: State, b: State)
    requires IsStormState(ports, lags, a) && IsStormState(ports, lags, b)
    ensures a == b
  {
    forall name ensures Get(a, name) == Get(b, name) {
      if NamesLag(lags, name) {
        var group :| group in lags && lags[group] != map[] && LagName(group) == name;
        assert Get(a, LagName(group)) == Get(b, LagName(group));
      }
    }
    SameMap(a, b);
  }

  method BuildStorm(ports: map<string, Levels>, lags: map<nat, Levels>) returns (s: State)
    ensures IsStormState(ports, lags, s)
  {
    s := map[];
    var left := ports.Keys;
    while left != {}
      invariant left <= ports.Keys
      invariant s == map name | name in ports && name !in left && ports[name] != map[] :: ports[name]
      decreases left
    {
      var name :| name in left;
      if ports[name] != map[] {
        s := s[name := ports[name]];
      }
      left := left - {name};
    }
    var groups := lags.Keys;
    while groups != {}
      invariant groups <= lags.Keys && NoEmpty(s)
      invariant forall group | group in lags && group !in groups && lags[group] != map[] ::
        Get(s, LagName(group)) == Some(lags[group])
      invariant forall name | name in ports && ports[name] != map[] && !NamesLag(lags, name) ::
        Get(s, name) == Some(ports[name])
      invariant forall name <- s :: (name in ports && ports[name] != map[]) || NamesLag(lags, name)
      decreases groups
    {
      var group :| group in groups;
      if lags[group] != map[] {
        forall other | other in lags && LagName(other) == LagName(group) ensures other == group {
          LagNameInjective(other, group);
        }
        s := s[LagName(group) := lags[group]];
      }
      groups := groups - {group};
    }
  }

  // ---------------------------------------------------------------- one level at a time

  function LevelsAt(s: State, name: string): Levels {
    if name in s then s[name] else map[]
  }

  function Level(s: State, key: Key): Option<string> {
    Get(LevelsAt(s, key.0), key.1)
  }

  /** States without empty interfaces are told apart by their levels. */
  lemma SameLevels(a: State, b: State)
    requires NoEmpty(a) && NoEmpty(b) && forall key :: Level(a, key) == Level(b, key)
    ensures a == b
  {
    forall name ensures Get(a, name) == Get(b, name) {
      forall kind ensures Get(LevelsAt(a, name), kind) == Get(LevelsAt(b, name), kind) {
        assert Level(a, (name, kind)) == Level(b, (name, kind));
      }
      SameMap(LevelsAt(a, name), LevelsAt(b, name));
    }
    SameMap(a, b);
  }

  type StormChange = Change<Key, string>

  function After(levels: Levels, kind: Kind, level: Option<string>): Levels {
    if level.Some? then levels[kind := level.value] else levels - {kind}
  }

  /** One change on the two-level state; an interface without levels is gone. */
  function Set(s: State, c: StormChange): State {
    var after := After(LevelsAt(s, c.key.0), c.key.1, c.after);
    if after == map[] then s - {c.key.0} else s[c.key.0 := after]
  }

  function SetAll(s: State, changes: seq<StormChange>): State
    decreases |changes|
  {
    if changes == [] then s else SetAll(Set(s, changes[0]), changes[1..])
  }

  lemma SetAt(s: State, c: StormChange, key: Key)
    ensures Level(Set(s, c), key) == if key == c.key then c.after else Level(s, key)
    ensures NoEmpty(s) ==> NoEmpty(Set(s, c))
  {
    assert key.0 == c.key.0 ==> LevelsAt(Set(s, c), key.0) == After(LevelsAt(s, key.0), c.key.1, c.after);
  }

  lemma {:induction false} SetAllAt(s: State, changes: seq<StormChange>, key: Key)
    requires DistinctKeys(changes)
    ensures !Mentions(changes, key) ==> Level(SetAll(s, changes), key) == Level(s, key)
    ensures forall i :: 0 <= i < |changes| && changes[i].key == key ==>
      Level(SetAll(s, changes), key) == changes[i].after
    ensures NoEmpty(s) ==> NoEmpty(SetAll(s, changes))
    decreases |changes|
  {
    if changes != [] {
      var rest := changes[1..];
      SetAt(s, changes[0], key);
      SetAllAt(Set(s, changes[0]), rest, key);
      assert forall i :: 0 < i < |changes| ==> changes[i] == rest[i - 1];
      if Mentions(rest, key) {
        var i :| 0 <= i < |rest| && rest[i].key == key;
        assert changes[i + 1].key == key;
      }
    }
  }

  /** Each interface and kind of `seen` whose level differs exactly once, and nothing else. */
  ghost predicate Reports(changes: seq<StormChange>, now: State, want: State, seen: set<Key>) {
    DistinctKeys(changes) &&
    (forall c <- changes ::
      c.key in seen && c.before == Level(now, c.key) && c.after == Level(want, c.key) && c.before != c.after) &&
    forall key <- seen :: Level(now, key) != Level(want, key) ==> Mentions(changes, key)
  }

  ghost predicate IsStormDiff(changes: seq<StormChange>, now: State, want: State) {
    Reports(changes, now, want, KeysIn(now, want, now.Keys + want.Keys))
  }

  /** Applying the diff to the running state gives the wanted state, both levels of it. */
  lemma StormReaches(changes: seq<StormChange>, now: State, want: State)
    requires NoEmpty(now) && NoEmpty(want) && IsStormDiff(changes, now, want)
    ensures SetAll(now, changes) == want
    ensures changes == [] <==> now == want
  {
    forall key ensures Level(SetAll(now, changes), key) == Level(want, key) {
      SetAllAt(now, changes, key);
      if Mentions(changes, key) {
        var i :| 0 <= i < |changes| && changes[i].key == key;
        assert changes[i] in changes;
      } else {
        assert key in KeysIn(now, want, now.Keys + want.Keys) || (Level(now, key) == None && Level(want, key) == None);
      }
    }
    SetAllAt(now, changes, ("", Broadcast));
    SameLevels(SetAll(now, changes), want);
    if changes != [] {
      assert changes[0] in changes;
    }
  }

  // ---------------------------------------------------------------- the nested loops

  function KeysOf(name: string, kinds: set<Kind>): set<Key> {
    set kind <- kinds :: (name, kind)
  }

  lemma KeysMore(name: string, kinds: set<Kind>, kind: Kind)
    ensures KeysOf(name, kinds + {kind}) == KeysOf(name, kinds) + {(name, kind)}
  {
  }

  /** The keys some interfaces have, on either side. */
  function KeysIn(now: State, want: State, names: set<string>): set<Key> {
    set name <- names, kind <- LevelsAt(now, name).Keys + LevelsAt(want, name).Keys :: (name, kind)
  }

  lemma KeysInMore(now: State, want: State, names: set<string>, name: string)
    ensures KeysIn(now, want, names + {name}) ==
      KeysIn(now, want, names) + KeysOf(name, LevelsAt(want, name).Keys) + KeysOf(name, LevelsAt(now, name).Keys)
  {
  }

  /** One key visited. */
  lemma Visit(changes: seq<StormChange>, now: State, want: State, seen: set<Key>, key: Key)
    requires Reports(changes, now, want, seen)
    ensures key in seen || Level(now, key) == Level(want, key) ==> Reports(changes, now, want, seen + {key})
    ensures key !in seen && Level(now, key) != Level(want, key) ==>
      Reports(changes + [Change(key, Level(now, key), Level(want, key))], now, want, seen + {key})
  {
    if key !in seen && Level(now, key) != Level(want, key) {
      var more := changes + [Change(key, Level(now, key), Level(want, key))];
      assert more[|changes|].key == key;
      forall other | other in seen && Level(now, other) != Level(want, other) ensures Mentions(more, other) {
        assert Mentions(changes, other);
        var i :| 0 <= i < |changes| && changes[i].key == other;
        assert more[i].key == other;
      }
      forall i | 0 <= i < |changes| ensures changes[i].key != key { assert changes[i] in changes; }
    }
  }

  method DiffWanted(name: string, now: State, want: State, before: seq<StormChange>, ghost seen: set<Key>)
    returns (changes: seq<StormChange>)
    requires Reports(before, now, want, seen) && forall kind :: (name, kind) !in seen
    ensures Reports(changes, now, want, seen + KeysOf(name, LevelsAt(want, name).Keys))
  {
    changes := before;
    var levels, current := LevelsAt(want, name), LevelsAt(now, name);
    var left := levels.Keys;
    ghost var done: set<Kind> := {};
    assert seen + KeysOf(name, done) == seen;
    while left != {}
      invariant done !! left && done + left == levels.Keys
      invariant Reports(changes, now, want, seen + KeysOf(name, done))
      decreases left
    {
      var kind :| kind in left;
      Visit(changes, now, want, seen + KeysOf(name, done), (name, kind));
      KeysMore(name, done, kind);
      assert seen + KeysOf(name, done) + {(name, kind)} == seen + KeysOf(name, done + {kind});
      if Get(current, kind) != Some(levels[kind]) {
        changes := changes + [Change((name, kind), Get(current, kind), Some(levels[kind]))];
      }
      left, done := left - {kind}, done + {kind};
    }
    assert done == levels.Keys;
  }

  /** Levels that are set and no longer wanted. */
  method DiffVanished(name: string, now: State, want: State, before: seq<StormChange>, ghost seen: set<Key>)
    returns (changes: seq<StormChange>)
    requires Reports(before, now, want, seen)
    requires forall kind :: (name, kind) in seen <==> kind in LevelsAt(want, name)
    ensures Reports(changes, now, want, seen + KeysOf(name, LevelsAt(now, name).Keys))
  {
    changes := before;
    var levels, current := LevelsAt(want, name), LevelsAt(now, name);
    var left := current.Keys;
    ghost var done: set<Kind> := {};
    assert seen + KeysOf(name, done) == seen;
    while left != {}
      invariant done !! left && done + left == current.Keys
      invariant Reports(changes, now, want, seen + KeysOf(name, done))
      decreases left
    {
      var kind :| kind in left;
      Visit(changes, now, want, seen + KeysOf(name, done), (name, kind));
      KeysMore(name, done, kind);
      assert seen + KeysOf(name, done) + {(name, kind)} == seen + KeysOf(name, done + {kind});
      if kind !in levels {
        changes := changes + [Change((name, kind), Some(current[kind]), None)];
      }
      left, done := left - {kind}, done + {kind};
    }
    assert done == current.Keys;
  }

  /** One interface; of a vanished one only the second loop has anything to say. */
  method DiffName(name: string, now: State, want: State, before: seq<StormChange>, ghost names: set<string>)
    returns (changes: seq<StormChange>)
    requires name !in names && Reports(before, now, want, KeysIn(now, want, names))
    ensures Reports(changes, now, want, KeysIn(now, want, names + {name}))
  {
    ghost var seen := KeysIn(now, want, names);
    changes := DiffWanted(name, now, want, before, seen);
    changes := DiffVanished(name, now, want, changes, seen + KeysOf(name, LevelsAt(want, name).Keys));
    KeysInMore(now, want, names, name);
  }

  method DiffStorm(now: State, want: State) returns (changes: seq<StormChange>)
    ensures IsStormDiff(changes, now, want)
  {
    changes := [];
    ghost var names: set<string> := {};
    assert KeysIn(now, want, names) == {};
    var left := want.Keys;
    while left != {}
      invariant names !! left && names + left == want.Keys
      invariant Reports(changes, now, want, KeysIn(now, want, names))
      decreases left
    {
      var name :| name in left;
      changes := DiffName(name, now, want, changes, names);
      left, names := left - {name}, names + {name};
    }
    left := now.Keys - want.Keys;
    while left != {}
      invariant left <= now.Keys - want.Keys && names == want.Keys + now.Keys - left
      invariant Reports(changes, now, want, KeysIn(now, want, names))
      decreases left
    {
      var name :| name in left;
      changes := DiffName(name, now, want, changes, names);
      left, names := left - {name}, names + {name};
    }
    assert names == now.Keys + want.Keys;
  }

  /** The diff of two configurations takes the running storm state to the wanted one. */
  method DiffStormControl(
      nowPorts: map<string, Levels>, nowLags: map<nat, Levels>,
      wantPorts: map<string, Levels>, wantLags: map<nat, Levels>)
    returns (changes: seq<StormChange>, ghost now: State, ghost want: State)
    ensures IsStormState(nowPorts, nowLags, now) && IsStormState(wantPorts, wantLags, want)
    ensures DistinctKeys(changes) && SetAll(now, changes) == want
    ensures changes == [] <==> now == want
  {
    var running := BuildStorm(nowPorts, nowLags);
    var candidate := BuildStorm(wantPorts, wantLags);
    changes := DiffStorm(running, candidate);
    now, want := running, candidate;
    StormReaches(changes, now, want);
  }
}
