/**
 * Static routes from the `static` block (hemlock-mgmtd, intents.rs): one line per next hop
 * or null route, gathered per prefix.
 */
module StaticRoutes {
  import opened Basics
  import opened ConfigTree
  import opened OsApply

  const DEFAULT_DISTANCE := 1

  /** The checks of single words, which live in the shared network library. */
  datatype Rules = Rules(
    canonical: string -> Option<string>,
    nextHop: (string, string) -> bool,
    distance: string -> Option<nat>)

  datatype Target = Null | Via(hop: string, distance: Option<nat>)

  datatype Line = Line(prefix: string, target: Target)

  /** What one statement says; `None` when it is malformed. */
  function Meaning(item: Item, rules: Rules): Option<Line> {
    if item.Block? then None else
      var prefix := rules.canonical(item.name);
      if prefix.None? then None
      else if item.values == ["drop"] then Some(Line(prefix.value, Null))
      else if item.values == [] || !rules.nextHop(prefix.value, item.values[0]) then None
      else if |item.values| == 1 then Some(Line(prefix.value, Via(item.values[0], None)))
      else if |item.values| == 3 && item.values[1] == "distance" then
        var distance := rules.distance(item.values[2]);
        if distance.None? then None else Some(Line(prefix.value, Via(item.values[0], distance)))
      else None
  }

  // ---------------------------------------------------------------- what the lines together mean

  /** Two lines of one prefix agree on its kind and on any distance they give. */
  predicate Agree(a: Line, b: Line) {
    a.prefix == b.prefix ==>
      match (a.target, b.target)
      case (Null, Null) => true
      case (Via(_, Some(d)), Via(_, Some(e))) => d == e
      case (Via(_, _), Via(_, _)) => true
      case _ => false
  }

  ghost predicate Good(lines: set<Line>) {
    forall a <- lines, b <- lines :: Agree(a, b)
  }

  function Hops(lines: set<Line>, prefix: string): set<string> {
    set l <- lines | l.prefix == prefix && l.target.Via? :: l.target.hop
  }

  ghost predicate Mentions(lines: set<Line>, prefix: string) {
    exists l <- lines :: l.prefix == prefix
  }

  predicate Gives(l: Line, prefix: string, distance: nat) {
    l.prefix == prefix && l.target.Via? && l.target.distance == Some(distance)
  }

  /**
   * A route per prefix: the union of its next hops, a null route when there is none, at the
   * distance the lines give or else at one.
   */
  ghost predicate Gathers(lines: set<Line>, routes: map<string, StaticRoute>) {
    (forall p :: p in routes <==> Mentions(lines, p)) &&
    forall p <- routes ::
      routes[p].nextHops == Hops(lines, p) &&
      routes[p].drop == (routes[p].nextHops == {}) &&
      (forall l <- lines, d :: Gives(l, p, d) ==> routes[p].distance == d) &&
      ((forall l <- lines, d :: !Gives(l, p, d)) ==> routes[p].distance == DEFAULT_DISTANCE)
  }

  ghost predicate WellFormed(items: set<Item>, rules: Rules) {
    forall item <- items :: Meaning(item, rules).Some?
  }

  function LinesOf(items: set<Item>, rules: Rules): set<Line> {
    set item <- items | Meaning(item, rules).Some? :: Meaning(item, rules).value
  }

  /** The extraction, as a relation on the set of statements: no order, no repetition. */
  ghost predicate Extracts(items: set<Item>, rules: Rules, r: Option<map<string, StaticRoute>>) {
    (r.Some? <==> WellFormed(items, rules) && Good(LinesOf(items, rules))) &&
    (r.Some? ==> Gathers(LinesOf(items, rules), r.value))
  }

  lemma GathersUnique(lines: set<Line>, a: map<string, StaticRoute>, b: map<string, StaticRoute>)
    requires Gathers(lines, a) && Gathers(lines, b)
    ensures a == b
  {
    assert a.Keys == b.Keys;
    forall p | p in a ensures a[p] == b[p] {
      if l, d :| l in lines && Gives(l, p, d) {
        assert a[p].distance == d && b[p].distance == d;
      }
    }
  }

  /** Any two orders of the same statements give the same success and the same routes. */
  lemma OrderFree(
      one: seq<Item>, two: seq<Item>, rules: Rules,
      r: Option<map<string, StaticRoute>>, s: Option<map<string, StaticRoute>>)
    requires multiset(one) == multiset(two)
    requires Extracts(Elements(one), rules, r) && Extracts(Elements(two), rules, s)
    ensures r == s
  {
    forall item ensures item in one <==> item in two {
      assert item in multiset(one) <==> item in multiset(two);
    }
    assert Elements(one) == Elements(two);
    if r.Some? {
      GathersUnique(LinesOf(Elements(one), rules), r.value, s.value);
    }
  }

  // ---------------------------------------------------------------- the tables of the loop

  ghost predicate Keyed(lines: set<Line>, routes: map<string, StaticRoute>) {
    forall p :: p in routes <==> Mentions(lines, p)
  }

  /** The distances given so far. */
  ghost predicate Given(lines: set<Line>, explicit: map<string, nat>) {
    (forall p <- explicit :: exists l <- lines :: Gives(l, p, explicit[p])) &&
    forall l <- lines, d :: Gives(l, l.prefix, d) ==> l.prefix in explicit && explicit[l.prefix] == d
  }

  predicate Tracks(lines: set<Line>, p: string, route: StaticRoute, explicit: map<string, nat>) {
    route.nextHops == Hops(lines, p) && route.drop == (route.nextHops == {}) &&
    route.distance == if p in explicit then explicit[p] else DEFAULT_DISTANCE
  }

  ghost predicate Tables(lines: set<Line>, routes: map<string, StaticRoute>, explicit: map<string, nat>) {
    Good(lines) && Keyed(lines, routes) && Given(lines, explicit) &&
    forall p <- routes :: Tracks(lines, p, routes[p], explicit)
  }

  lemma TablesGather(lines: set<Line>, routes: map<string, StaticRoute>, explicit: map<string, nat>)
    requires Tables(lines, routes, explicit)
    ensures Gathers(lines, routes)
  {
    forall p | p in routes
      ensures forall l <- lines, d :: Gives(l, p, d) ==> routes[p].distance == d
      ensures (forall l <- lines, d :: !Gives(l, p, d)) ==> routes[p].distance == DEFAULT_DISTANCE
    {
      assert Tracks(lines, p, routes[p], explicit);
    }
  }

  lemma HopsMore(lines: set<Line>, l: Line, p: string)
    ensures Hops(lines + {l}, p) == Hops(lines, p) + if l.prefix == p && l.target.Via? then {l.target.hop} else {}
  {
    if l.prefix == p && l.target.Via? {
      assert l in lines + {l};
    }
  }

  lemma NullAlone(lines: set<Line>, l: Line)
    requires Good(lines) && l in lines && l.target.Null?
    ensures Hops(lines, l.prefix) == {}
  {
    forall other | other in lines && other.prefix == l.prefix ensures other.target.Null? {
      assert Agree(l, other);
    }
  }

  /** What the tables test before a line is taken. */
  predicate Admits(routes: map<string, StaticRoute>, explicit: map<string, nat>, l: Line) {
    match l.target
    case Null => l.prefix in routes ==> routes[l.prefix].nextHops == {}
    case Via(_, distance) =>
      (l.prefix in routes ==> !routes[l.prefix].drop) &&
      (distance.Some? && l.prefix in explicit ==> explicit[l.prefix] == distance.value)
  }

  lemma GoodAdmits(lines: set<Line>, routes: map<string, StaticRoute>, explicit: map<string, nat>, l: Line)
    requires Tables(lines, routes, explicit) && Good(lines + {l})
    ensures Admits(routes, explicit, l)
  {
    var p := l.prefix;
    assert l in lines + {l};
    if p in routes {
      assert Tracks(lines, p, routes[p], explicit);
      var other :| other in lines && other.prefix == p;
      assert Agree(l, other);
      if l.target.Null? {
        NullAlone(lines + {l}, l);
        HopsMore(lines, l, p);
      } else {
        assert other.target.hop in Hops(lines, p);
      }
    }
    if p in explicit {
      var other :| other in lines && Gives(other, p, explicit[p]);
      assert Agree(l, other);
    }
  }

  lemma AdmitsAgrees(
      lines: set<Line>, routes: map<string, StaticRoute>, explicit: map<string, nat>, l: Line, other: Line)
    requires Tables(lines, routes, explicit) && Admits(routes, explicit, l) && other in lines
    ensures Agree(l, other) && Agree(other, l)
  {
    var p := l.prefix;
    if other.prefix == p {
      assert Mentions(lines, p) && Tracks(lines, p, routes[p], explicit);
      if other.target.Null? {
        NullAlone(lines, other);
      } else {
        assert other.target.hop in Hops(lines, p);
        assert other.target.distance.Some? ==> Gives(other, p, other.target.distance.value);
      }
    }
  }

  /** A line agrees with the lines before it exactly when the tables admit it. */
  lemma AdmitsIff(lines: set<Line>, routes: map<string, StaticRoute>, explicit: map<string, nat>, l: Line)
    requires Tables(lines, routes, explicit)
    ensures Good(lines + {l}) <==> Admits(routes, explicit, l)
  {
    if Good(lines + {l}) {
      GoodAdmits(lines, routes, explicit, l);
    }
    if Admits(routes, explicit, l) {
      forall other | other in lines ensures Agree(l, other) && Agree(other, l) {
        AdmitsAgrees(lines, routes, explicit, l, other);
      }
    }
  }

  function RouteOr(routes: map<string, StaticRoute>, prefix: string): StaticRoute {
    if prefix in routes then routes[prefix] else StaticRoute({}, false, DEFAULT_DISTANCE)
  }

  lemma KeyedMore(lines: set<Line>, routes: map<string, StaticRoute>, l: Line, route: StaticRoute)
    requires Keyed(lines, routes)
    ensures Keyed(lines + {l}, routes[l.prefix := route])
  {
    var more, after := lines + {l}, routes[l.prefix := route];
    assert l in more;
    forall p ensures p in after <==> Mentions(more, p) {
      if Mentions(lines, p) {
        var other :| other in lines && other.prefix == p;
        assert other in more;
      }
    }
  }

  function GivenAfter(explicit: map<string, nat>, l: Line): map<string, nat> {
    if l.target.Via? && l.target.distance.Some? then explicit[l.prefix := l.target.distance.value] else explicit
  }

  lemma GivenMore(lines: set<Line>, explicit: map<string, nat>, l: Line)
    requires Given(lines, explicit) && Good(lines + {l})
    ensures Given(lines + {l}, GivenAfter(explicit, l))
  {
    var more, after := lines + {l}, GivenAfter(explicit, l);
    assert l in more;
    forall p | p in after ensures exists m <- more :: Gives(m, p, after[p]) {
      if p == l.prefix && after != explicit {
        assert Gives(l, p, after[p]);
      } else {
        var m :| m in lines && Gives(m, p, explicit[p]);
        assert m in more;
      }
    }
    forall m, d | m in more && Gives(m, m.prefix, d) ensures m.prefix in after && after[m.prefix] == d {
      assert Agree(l, m);
    }
  }

  function RouteAfter(routes: map<string, StaticRoute>, l: Line): StaticRoute {
    var route := RouteOr(routes, l.prefix);
    match l.target
    case Null => route.(drop := true)
    case Via(hop, distance) =>
      StaticRoute(route.nextHops + {hop}, route.drop, if distance.Some? then distance.value else route.distance)
  }

  /** The tables after one more admitted line. */
  lemma TablesMore(lines: set<Line>, routes: map<string, StaticRoute>, explicit: map<string, nat>, l: Line)
    requires Tables(lines, routes, explicit) && Admits(routes, explicit, l)
    ensures Tables(lines + {l}, routes[l.prefix := RouteAfter(routes, l)], GivenAfter(explicit, l))
  {
    AdmitsIff(lines, routes, explicit, l);
    var after, given := routes[l.prefix := RouteAfter(routes, l)], GivenAfter(explicit, l);
    KeyedMore(lines, routes, l, RouteAfter(routes, l));
    GivenMore(lines, explicit, l);
    forall p | p in after ensures Tracks(lines + {l}, p, after[p], given) {
      HopsMore(lines, l, p);
      if p in routes {
        assert Tracks(lines, p, routes[p], explicit);
      } else {
        NoneBefore(lines, explicit, p);
      }
    }
  }

  lemma NoneBefore(lines: set<Line>, explicit: map<string, nat>, p: string)
    requires !Mentions(lines, p) && Given(lines, explicit)
    ensures Hops(lines, p) == {} && p !in explicit
  {
  }

  // ---------------------------------------------------------------- the loop

  /** One line; not `ok` when it contradicts the lines before it. */
  method Take(l: Line, before: map<string, StaticRoute>, given: map<string, nat>, ghost lines: set<Line>)
    returns (ok: bool, routes: map<string, StaticRoute>, explicit: map<string, nat>)
    requires Tables(lines, before, given)
    ensures ok <==> Good(lines + {l})
    ensures ok ==> Tables(lines + {l}, routes, explicit)
  {
    AdmitsIff(lines, before, given, l);
    routes, explicit := before, given;
    var entry := RouteOr(routes, l.prefix);
    match l.target {
      case Null =>
        if entry.nextHops != {} {
          return false, routes, explicit;
        }
        entry := entry.(drop := true);
      case Via(hop, distance) =>
        if entry.drop {
          return false, routes, explicit;
        }
        if distance.Some? {
          if l.prefix in explicit && explicit[l.prefix] != distance.value {
            return false, routes, explicit;
          }
          explicit := explicit[l.prefix := distance.value];
          entry := entry.(distance := distance.value);
        }
        entry := entry.(nextHops := entry.nextHops + {hop});
    }
    TablesMore(lines, before, given, l);
    routes := routes[l.prefix := entry];
    ok := true;
  }

  lemma LinesMore(items: set<Item>, rules: Rules, item: Item)
    ensures LinesOf(items + {item}, rules) ==
      LinesOf(items, rules) + if Meaning(item, rules).Some? then {Meaning(item, rules).value} else {}
  {
    if Meaning(item, rules).Some? {
      assert item in items + {item};
    }
  }

  lemma NotGood(items: set<Item>, some: set<Item>, rules: Rules)
    requires some <= items && !Good(LinesOf(some, rules))
    ensures !Good(LinesOf(items, rules))
  {
    var a, b :| a in LinesOf(some, rules) && b in LinesOf(some, rules) && !Agree(a, b);
    assert a in LinesOf(items, rules) && b in LinesOf(items, rules);
  }

  method ExtractRoutes(children: seq<Item>, rules: Rules) returns (r: Option<map<string, StaticRoute>>)
    ensures Extracts(Elements(children), rules, r)
  {
    var routes: map<string, StaticRoute>, explicit: map<string, nat>, i := map[], map[], 0;
    assert LinesOf(Elements(children[..0]), rules) == {};
    while i < |children|
      invariant i <= |children| && WellFormed(Elements(children[..i]), rules)
      invariant Tables(LinesOf(Elements(children[..i]), rules), routes, explicit)
    {
      var line := Meaning(children[i], rules);
      assert children[i] in Elements(children);
      if line.None? {
        return None;
      }
      ghost var done := Elements(children[..i]);
      ElementsSnoc(children[..i], children[i]);
      assert children[..i + 1] == children[..i] + [children[i]];
      LinesMore(done, rules, children[i]);
      var ok;
      ok, routes, explicit := Take(line.value, routes, explicit, LinesOf(done, rules));
      if !ok {
        NotGood(Elements(children), Elements(children[..i + 1]), rules);
        return None;
      }
      i := i + 1;
    }
    assert children[..i] == children;
    TablesGather(LinesOf(Elements(children), rules), routes, explicit);
    r := Some(routes);
  }
}
