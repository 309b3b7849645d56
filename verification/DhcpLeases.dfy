/**
 * The lease view (hemlock-orch, dhcpserver.rs): dnsmasq's leases merged with the
 * configured reservations, and the use made of every dynamic range.
 */
module DhcpLeases {
  import opened Basics
  import DhcpPools

  type Addr = DhcpPools.Addr

  const ADDRESSES := 0x1_0000_0000

  /** Reservations are listed in the order of their MACs. */
  datatype Pool = Pool(name: string, first: Addr, last: Addr, reservations: seq<(string, Addr)>)

  datatype Ident = Ident(address: Addr, mac: string, hostname: string, expires: Option<nat>)

  datatype Lease = Lease(id: Ident, reservation: bool, pool: string)

  /** One reservation of one pool. */
  datatype Claim = Claim(pool: string, mac: string, address: Addr)

  // ---------------------------------------------------------------- the dynamic range

  predicate InRange(p: Pool, address: Addr) {
    p.first <= address <= p.last
  }

  /** A 32-bit count: the last `+ 1` wraps in a release build; with overflow checks it panics instead. */
  function Capacity(p: Pool): nat {
    if p.last < p.first then 0 else (p.last - p.first + 1) % ADDRESSES
  }

  predicate WholeSpace(p: Pool) {
    p.first == 0 && p.last == ADDRESSES - 1
  }

  /** How many addresses the range holds. */
  function Width(p: Pool): nat {
    if p.last < p.first then 0 else p.last - p.first + 1
  }

  /** The capacity is that number, except for all of IPv4. */
  lemma CapacityIff(p: Pool)
    ensures Capacity(p) == Width(p) <==> !WholeSpace(p)
  {
  }

  lemma WidthCounts(p: Pool, addresses: set<int>)
    requires forall x <- addresses :: p.first <= x <= p.last
    ensures |addresses| <= Width(p)
  {
    BetweenSize(p.first, p.last);
    SmallerSet(addresses, Between(p.first, p.last));
  }

  // ---------------------------------------------------------------- the merge

  predicate Matches(id: Ident, c: Claim) {
    id.address == c.address || id.mac == c.mac
  }

  function Ids(rows: seq<Lease>): (r: seq<Ident>)
    ensures |r| == |rows| && forall i :: 0 <= i < |rows| ==> r[i] == rows[i].id
  {
    seq(|rows|, i requires 0 <= i < |rows| => rows[i].id)
  }

  /** The first row a reservation matches; the number of rows when there is none. */
  function First(ids: seq<Ident>, c: Claim): (k: nat)
    ensures k <= |ids| && (k < |ids| ==> Matches(ids[k], c))
    ensures forall i :: 0 <= i < k ==> !Matches(ids[i], c)
  {
    if ids == [] || Matches(ids[0], c) then 0 else 1 + First(ids[1..], c)
  }

  function Reserved(c: Claim): Ident {
    Ident(c.address, c.mac, "", None)
  }

  /** One reservation marks the row it matches or adds its own. */
  function Step(rows: seq<Lease>, c: Claim): seq<Lease> {
    var k := First(Ids(rows), c);
    if k < |rows| then rows[k := Lease(rows[k].id, true, c.pool)] else rows + [Lease(Reserved(c), true, c.pool)]
  }

  function Merge(rows: seq<Lease>, claims: seq<Claim>): seq<Lease>
    decreases claims
  {
    if claims == [] then rows else Merge(Step(rows, claims[0]), claims[1..])
  }

  function PoolClaims(name: string, reservations: seq<(string, Addr)>): seq<Claim> {
    if reservations == [] then []
    else [Claim(name, reservations[0].0, reservations[0].1)] + PoolClaims(name, reservations[1..])
  }

  /** The reservations of all pools, in order. */
  function Claims(pools: seq<Pool>): seq<Claim> {
    if pools == [] then [] else PoolClaims(pools[0].name, pools[0].reservations) + Claims(pools[1..])
  }

  // ---------------------------------------------------------------- what the merge gives

  /** The rows that reservations without any match add. */
  function Added(ids: seq<Ident>, claims: seq<Claim>): seq<Ident>
    decreases claims
  {
    if claims == [] then []
    else if First(ids, claims[0]) < |ids| then Added(ids, claims[1..])
    else [Reserved(claims[0])] + Added(ids + [Reserved(claims[0])], claims[1..])
  }

  /** The pool of the last reservation whose first match is row `i`. */
  function Stamp(ids: seq<Ident>, claims: seq<Claim>, i: nat): Option<string> {
    if claims == [] then None
    else
      var later := Stamp(ids, claims[1..], i);
      if later.Some? then later
      else if First(ids, claims[0]) == i then Some(claims[0].pool)
      else None
  }

  function Marked(row: Lease, stamp: Option<string>): Lease {
    if stamp.Some? then Lease(row.id, true, stamp.value) else row
  }

  lemma FirstExtends(ids: seq<Ident>, more: seq<Ident>, c: Claim)
    requires First(ids, c) < |ids|
    ensures First(ids + more, c) == First(ids, c)
  {
    assert Matches((ids + more)[First(ids, c)], c);
  }

  lemma StepIds(rows: seq<Lease>, c: Claim)
    ensures Ids(Step(rows, c)) == if First(Ids(rows), c) < |rows| then Ids(rows) else Ids(rows) + [Reserved(c)]
    ensures First(Ids(Step(rows, c)), c) == First(Ids(rows), c) < |Step(rows, c)|
  {
    var k, ids := First(Ids(rows), c), Ids(Step(rows, c));
    if k == |rows| {
      assert ids == Ids(rows) + [Reserved(c)];
      assert Matches(ids[k], c);
    } else {
      assert ids == Ids(rows);
    }
  }

  /** Rows keep who they are and their places; the reservations without a match follow. */
  lemma {:induction false} MergeConserves(rows: seq<Lease>, claims: seq<Claim>)
    ensures Ids(Merge(rows, claims)) == Ids(rows) + Added(Ids(rows), claims)
    decreases claims
  {
    if claims == [] {
      assert Ids(rows) + [] == Ids(rows);
    } else {
      StepIds(rows, claims[0]);
      MergeConserves(Step(rows, claims[0]), claims[1..]);
      if First(Ids(rows), claims[0]) == |rows| {
        var mine := Reserved(claims[0]);
        Assoc(Ids(rows), [mine], Added(Ids(rows) + [mine], claims[1..]));
      }
    }
  }

  /** A parsed row is marked exactly by the reservations that match it first, the last one naming its pool. */
  lemma {:induction false} MergeStamps(rows: seq<Lease>, claims: seq<Claim>, i: nat)
    requires i < |Merge(rows, claims)|
    ensures |rows| <= |Merge(rows, claims)|
    ensures i < |rows| ==> Merge(rows, claims)[i] == Marked(rows[i], Stamp(Ids(Merge(rows, claims)), claims, i))
    ensures i >= |rows| ==>
      var stamp := Stamp(Ids(Merge(rows, claims)), claims, i);
      stamp.Some? && Merge(rows, claims)[i].reservation && Merge(rows, claims)[i].pool == stamp.value
    decreases claims
  {
    if claims != [] {
      var c, next := claims[0], Step(rows, claims[0]);
      StepIds(rows, c);
      MergeStamps(next, claims[1..], i);
      MergeConserves(next, claims[1..]);
      FirstExtends(Ids(next), Added(Ids(next), claims[1..]), c);
    }
  }

  /** Every reservation is shown: the first row it matches is marked as reserved. */
  lemma {:induction false} MergeReserves(rows: seq<Lease>, claims: seq<Claim>, c: Claim)
    requires c in claims
    ensures var out := Merge(rows, claims); var k := First(Ids(out), c);
      k < |out| && out[k].reservation && Matches(out[k].id, c)
  {
    var out := Merge(rows, claims);
    MergeFinds(rows, claims, c);
    var k := First(Ids(out), c);
    MergeStamps(rows, claims, k);
    StampHere(Ids(out), claims, c);
  }

  lemma {:induction false} MergeFinds(rows: seq<Lease>, claims: seq<Claim>, c: Claim)
    requires c in claims
    ensures First(Ids(Merge(rows, claims)), c) < |Merge(rows, claims)|
    decreases claims
  {
    var next := Step(rows, claims[0]);
    if c == claims[0] {
      StepIds(rows, c);
      MergeConserves(next, claims[1..]);
      FirstExtends(Ids(next), Added(Ids(next), claims[1..]), c);
    } else {
      MergeFinds(next, claims[1..], c);
    }
  }

  lemma {:induction false} StampHere(ids: seq<Ident>, claims: seq<Claim>, c: Claim)
    requires c in claims
    ensures Stamp(ids, claims, First(ids, c)).Some?
  {
    if c != claims[0] {
      StampHere(ids, claims[1..], c);
    }
  }

  /** And only reservations mark: a reserved row has one that matches it first, in the pool it names. */
  lemma {:induction false} StampedBy(ids: seq<Ident>, claims: seq<Claim>, i: nat) returns (c: Claim)
    requires Stamp(ids, claims, i).Some?
    ensures c in claims && First(ids, c) == i && c.pool == Stamp(ids, claims, i).value
  {
    if Stamp(ids, claims[1..], i).Some? {
      c := StampedBy(ids, claims[1..], i);
    } else {
      c := claims[0];
    }
  }

  // ---------------------------------------------------------------- utilisation

  /** The pool whose dynamic range holds an address, the first in order. */
  function Home(pools: seq<Pool>, address: Addr): (name: Option<string>)
    ensures name.None? <==> forall p <- pools :: !InRange(p, address)
    ensures name.Some? ==> exists p <- pools :: p.name == name.value && InRange(p, address)
  {
    if pools == [] then None
    else if InRange(pools[0], address) then Some(pools[0].name)
    else Home(pools[1..], address)
  }

  /** The pool a lease belongs to: by its dynamic range or by a reserved address. */
  function PoolOf(pools: seq<Pool>, address: Addr): string {
    if pools == [] then ""
    else if InRange(pools[0], address) || exists r <- pools[0].reservations :: r.1 == address then pools[0].name
    else PoolOf(pools[1..], address)
  }

  function Names(pools: seq<Pool>): set<string> {
    set p <- pools :: p.name
  }

  predicate Uses(row: Lease, pools: seq<Pool>, name: string) {
    !row.reservation && Home(pools, row.id.address) == Some(name)
  }

  function Used(rows: seq<Lease>, pools: seq<Pool>, name: string): nat {
    if rows == [] then 0 else (if Uses(rows[0], pools, name) then 1 else 0) + Used(rows[1..], pools, name)
  }

  predicate Dynamic(row: Lease, pools: seq<Pool>) {
    !row.reservation && Home(pools, row.id.address).Some?
  }

  function Dynamics(rows: seq<Lease>, pools: seq<Pool>): nat {
    if rows == [] then 0 else (if Dynamic(rows[0], pools) then 1 else 0) + Dynamics(rows[1..], pools)
  }

  function Usage(rows: seq<Lease>, pools: seq<Pool>): map<string, nat> {
    map name | name in Names(pools) :: Used(rows, pools, name)
  }

  ghost function Total(m: map<string, nat>): nat
    decreases |m|
  {
    if m == map[] then 0 else
      var k :| k in m;
      m[k] + Total(m - {k})
  }

  lemma {:induction false} TotalTakes(m: map<string, nat>, k: string)
    requires k in m
    ensures Total(m) == m[k] + Total(m - {k})
    decreases |m|
  {
    var first :| first in m && Total(m) == m[first] + Total(m - {first});
    if first != k {
      TotalTakes(m - {first}, k);
      TotalTakes(m - {k}, first);
      assert m - {first} - {k} == m - {k} - {first};
    }
  }

  lemma {:induction false} TotalZero(m: map<string, nat>)
    requires forall k <- m :: m[k] == 0
    ensures Total(m) == 0
    decreases |m|
  {
    if m != map[] {
      var k :| k in m;
      TotalTakes(m, k);
      TotalZero(m - {k});
    }
  }

  /** The counters of all pools together count every dynamic lease inside some range, once. */
  lemma {:induction false} UsageTotal(rows: seq<Lease>, pools: seq<Pool>)
    ensures Total(Usage(rows, pools)) == Dynamics(rows, pools)
  {
    if rows == [] {
      TotalZero(Usage(rows, pools));
    } else {
      var rest := Usage(rows[1..], pools);
      UsageTotal(rows[1..], pools);
      if Dynamic(rows[0], pools) {
        var home := Home(pools, rows[0].id.address).value;
        assert home in rest;
        assert Usage(rows, pools) == rest[home := rest[home] + 1];
        TotalTakes(rest, home);
        TotalTakes(rest[home := rest[home] + 1], home);
        assert rest[home := rest[home] + 1] - {home} == rest - {home};
      } else {
        assert Usage(rows, pools) == rest;
      }
    }
  }

  // ---------------------------------------------------------------- capacity

  /** No address is leased twice from the dynamic ranges. */
  predicate OneEach(rows: seq<Lease>, pools: seq<Pool>) {
    forall i, j :: 0 <= i < j < |rows| && Dynamic(rows[i], pools) && Dynamic(rows[j], pools) ==>
      rows[i].id.address != rows[j].id.address
  }

  predicate DistinctNames(pools: seq<Pool>) {
    forall i, j :: 0 <= i < j < |pools| ==> pools[i].name != pools[j].name
  }

  function Held(rows: seq<Lease>, pools: seq<Pool>, name: string): set<int> {
    set row <- rows | Uses(row, pools, name) :: row.id.address as int
  }

  lemma {:induction false} HeldSize(rows: seq<Lease>, pools: seq<Pool>, name: string)
    requires OneEach(rows, pools)
    ensures |Held(rows, pools, name)| == Used(rows, pools, name)
  {
    if rows != [] {
      var rest := rows[1..];
      assert rows == [rows[0]] + rest;
      assert OneEach(rest, pools);
      HeldSize(rest, pools, name);
      if Uses(rows[0], pools, name) {
        assert rows[0].id.address as int !in Held(rest, pools, name);
        assert Held(rows, pools, name) == {rows[0].id.address as int} + Held(rest, pools, name);
      } else {
        assert Held(rows, pools, name) == Held(rest, pools, name);
      }
    }
  }

  lemma HeldInRange(rows: seq<Lease>, pools: seq<Pool>, p: Pool)
    requires DistinctNames(pools) && p in pools
    ensures forall x <- Held(rows, pools, p.name) :: p.first <= x <= p.last
  {
    forall row | row in rows && Uses(row, pools, p.name) ensures InRange(p, row.id.address) {
      var q :| q in pools && q.name == p.name && InRange(q, row.id.address);
      assert q == p;
    }
  }

  /**
   * With every address leased once, a pool never shows more leases than its capacity, unless
   * its range is all of IPv4, whose capacity reads zero.
   */
  lemma UseFitsIff(rows: seq<Lease>, pools: seq<Pool>, p: Pool)
    requires OneEach(rows, pools) && DistinctNames(pools) && p in pools
    ensures Used(rows, pools, p.name) <= Capacity(p) <==>
      !(WholeSpace(p) && exists row <- rows :: Uses(row, pools, p.name))
  {
    HeldSize(rows, pools, p.name);
    HeldInRange(rows, pools, p);
    WidthCounts(p, Held(rows, pools, p.name));
    CapacityIff(p);
    if row :| row in rows && Uses(row, pools, p.name) {
      assert row.id.address as int in Held(rows, pools, p.name);
    } else {
      assert Held(rows, pools, p.name) == {};
    }
  }

  // ---------------------------------------------------------------- the order of the rows

  /** Text order, as the standard library compares MACs. */
  predicate TextLeq(a: string, b: string) {
    a == "" || (b != "" && (a[0] < b[0] || (a[0] == b[0] && TextLeq(a[1..], b[1..]))))
  }

  lemma {:induction false} TextTotal(a: string, b: string)
    ensures TextLeq(a, b) || TextLeq(b, a)
    ensures TextLeq(a, b) && TextLeq(b, a) ==> a == b
    ensures TextLeq(a, a)
  {
    if a != "" {
      TextTotal(a[1..], if b == "" then "" else b[1..]);
      if b != "" && TextLeq(a, b) && TextLeq(b, a) {
        assert a == [a[0]] + a[1..] && b == [b[0]] + b[1..];
      }
    }
  }

  lemma {:induction false} TextTransitive(a: string, b: string, c: string)
    requires TextLeq(a, b) && TextLeq(b, c)
    ensures TextLeq(a, c)
  {
    if a != "" && a[0] == b[0] == c[0] {
      TextTransitive(a[1..], b[1..], c[1..]);
    }
  }

  predicate RowLeq(a: Lease, b: Lease) {
    a.id.address < b.id.address || (a.id.address == b.id.address && TextLeq(a.id.mac, b.id.mac))
  }

  predicate Ordered(rows: seq<Lease>) {
    forall i, j :: 0 <= i < j < |rows| ==> RowLeq(rows[i], rows[j])
  }

  predicate Twin(row: Lease, id: Ident) {
    row.id.address == id.address && row.id.mac == id.mac
  }

  /** Rows of one address and MAC, in their order. */
  function Twins(rows: seq<Lease>, id: Ident): seq<Lease> {
    if rows == [] then []
    else if Twin(rows[0], id) then [rows[0]] + Twins(rows[1..], id)
    else Twins(rows[1..], id)
  }

  function Insert(row: Lease, rows: seq<Lease>): (r: seq<Lease>)
    ensures multiset(r) == multiset(rows) + multiset{row}
  {
    if rows == [] || RowLeq(row, rows[0]) then [row] + rows
    else
      assert rows == [rows[0]] + rows[1..];
      [rows[0]] + Insert(row, rows[1..])
  }

  /** A stable sort by address and MAC. */
  function Sorted(rows: seq<Lease>): (r: seq<Lease>)
    ensures multiset(r) == multiset(rows)
  {
    if rows == [] then [] else
      assert rows == [rows[0]] + rows[1..];
      Insert(rows[0], Sorted(rows[1..]))
  }

  lemma {:induction false} InsertOrders(row: Lease, rows: seq<Lease>)
    requires Ordered(rows)
    ensures Ordered(Insert(row, rows))
  {
    if rows != [] {
      var head, rest := rows[0], rows[1..];
      TextTotal(row.id.mac, head.id.mac);
      if RowLeq(row, head) {
        forall j | 0 <= j < |rows| ensures RowLeq(row, rows[j]) {
          if j > 0 { RowTransitive(row, head, rows[j]); }
        }
      } else {
        assert Ordered(rest);
        InsertOrders(row, rest);
        var r := Insert(row, rest);
        forall j | 0 <= j < |r| ensures RowLeq(head, r[j]) {
          assert r[j] in multiset(r);
          assert r[j] == row || r[j] in multiset(rest);
        }
      }
    }
  }

  lemma RowTransitive(a: Lease, b: Lease, c: Lease)
    requires RowLeq(a, b) && RowLeq(b, c)
    ensures RowLeq(a, c)
  {
    if a.id.address == b.id.address == c.id.address {
      TextTransitive(a.id.mac, b.id.mac, c.id.mac);
    }
  }

  lemma {:induction false} SortOrders(rows: seq<Lease>)
    ensures Ordered(Sorted(rows))
  {
    if rows != [] {
      SortOrders(rows[1..]);
      InsertOrders(rows[0], Sorted(rows[1..]));
    }
  }

  lemma {:induction false} InsertCounts(row: Lease, rows: seq<Lease>, pools: seq<Pool>, name: string)
    ensures Used(Insert(row, rows), pools, name) == Used([row] + rows, pools, name)
  {
    assert ([row] + rows)[1..] == rows;
    if rows != [] && !RowLeq(row, rows[0]) {
      InsertCounts(row, rows[1..], pools, name);
      assert ([row] + rows[1..])[1..] == rows[1..];
      assert Insert(row, rows)[1..] == Insert(row, rows[1..]);
    }
  }

  /** Sorting changes no counter. */
  lemma {:induction false} SortCounts(rows: seq<Lease>, pools: seq<Pool>, name: string)
    ensures Used(Sorted(rows), pools, name) == Used(rows, pools, name)
  {
    if rows != [] {
      var rest := Sorted(rows[1..]);
      SortCounts(rows[1..], pools, name);
      InsertCounts(rows[0], rest, pools, name);
      assert ([rows[0]] + rest)[1..] == rest;
    }
  }

  lemma TwinsCons(row: Lease, rows: seq<Lease>, id: Ident)
    ensures Twins([row] + rows, id) == if Twin(row, id) then [row] + Twins(rows, id) else Twins(rows, id)
  {
    assert ([row] + rows)[1..] == rows;
  }

  lemma {:induction false} InsertStable(row: Lease, rows: seq<Lease>, id: Ident)
    ensures Twins(Insert(row, rows), id) == Twins([row] + rows, id)
  {
    if rows != [] && !RowLeq(row, rows[0]) {
      TextTotal(row.id.mac, rows[0].id.mac);
      assert !Twin(row, id) || !Twin(rows[0], id);
      InsertStable(row, rows[1..], id);
      TwinsCons(row, rows[1..], id);
      TwinsCons(row, rows, id);
      TwinsCons(rows[0], Insert(row, rows[1..]), id);
    }
  }

  /** Rows of one address and MAC keep their order. */
  lemma {:induction false} SortStable(rows: seq<Lease>, id: Ident)
    ensures Twins(Sorted(rows), id) == Twins(rows, id)
  {
    if rows != [] {
      var rest := Sorted(rows[1..]);
      SortStable(rows[1..], id);
      InsertStable(rows[0], rest, id);
      assert ([rows[0]] + rest)[1..] == rest;
    }
  }

  // ---------------------------------------------------------------- the loops

  /** The rows of the lease file before the reservations are merged. */
  function Parsed(ids: seq<Ident>, pools: seq<Pool>): (r: seq<Lease>)
    ensures Ids(r) == ids
  {
    seq(|ids|, i requires 0 <= i < |ids| => Lease(ids[i], false, PoolOf(pools, ids[i].address)))
  }

  method MarkOrAdd(before: seq<Lease>, c: Claim) returns (rows: seq<Lease>)
    ensures rows == Step(before, c)
  {
    rows := before;
    var k := First(Ids(rows), c);
    if k < |rows| {
      rows := rows[k := Lease(rows[k].id, true, c.pool)];
    } else {
      rows := rows + [Lease(Reserved(c), true, c.pool)];
    }
  }

  lemma MergeNext(rows: seq<Lease>, c: Claim, claims: seq<Claim>)
    ensures Merge(rows, [c] + claims) == Merge(Step(rows, c), claims)
  {
    assert ([c] + claims)[1..] == claims;
  }

  lemma {:induction false} MergeConcat(rows: seq<Lease>, a: seq<Claim>, b: seq<Claim>)
    ensures Merge(rows, a + b) == Merge(Merge(rows, a), b)
    decreases a
  {
    if a == [] {
      Unit(b);
    } else {
      assert a == [a[0]] + a[1..];
      Assoc([a[0]], a[1..], b);
      MergeNext(rows, a[0], a[1..] + b);
      MergeConcat(Step(rows, a[0]), a[1..], b);
    }
  }

  /** The reservations of one pool. */
  method MergePool(before: seq<Lease>, pool: Pool) returns (rows: seq<Lease>)
    ensures rows == Merge(before, PoolClaims(pool.name, pool.reservations))
  {
    rows := before;
    var j := 0;
    assert pool.reservations[0..] == pool.reservations;
    while j < |pool.reservations|
      invariant j <= |pool.reservations|
      invariant Merge(rows, PoolClaims(pool.name, pool.reservations[j..])) ==
        Merge(before, PoolClaims(pool.name, pool.reservations))
    {
      var c := Claim(pool.name, pool.reservations[j].0, pool.reservations[j].1);
      assert pool.reservations[j..][1..] == pool.reservations[j + 1..];
      MergeNext(rows, c, PoolClaims(pool.name, pool.reservations[j + 1..]));
      rows := MarkOrAdd(rows, c);
      j := j + 1;
    }
  }

  method MergeReservations(parsed: seq<Lease>, pools: seq<Pool>) returns (rows: seq<Lease>)
    ensures rows == Merge(parsed, Claims(pools))
  {
    rows := parsed;
    var i := 0;
    assert pools[0..] == pools;
    while i < |pools|
      invariant i <= |pools|
      invariant Merge(rows, Claims(pools[i..])) == Merge(parsed, Claims(pools))
    {
      assert pools[i..][1..] == pools[i + 1..];
      MergeConcat(rows, PoolClaims(pools[i].name, pools[i].reservations), Claims(pools[i + 1..]));
      rows := MergePool(rows, pools[i]);
      i := i + 1;
    }
  }

  lemma UsedNext(rows: seq<Lease>, i: nat, pools: seq<Pool>, name: string)
    requires i < |rows|
    ensures Used(rows[i..], pools, name) ==
      (if Uses(rows[i], pools, name) then 1 else 0) + Used(rows[i + 1..], pools, name)
  {
    assert rows[i..][1..] == rows[i + 1..];
  }

  method CountUse(rows: seq<Lease>, pools: seq<Pool>) returns (inUse: map<string, nat>)
    ensures inUse == Usage(rows, pools)
  {
    inUse := map name | name in Names(pools) :: 0;
    var i := 0;
    while i < |rows|
      invariant i <= |rows| && inUse.Keys == Names(pools)
      invariant forall name <- inUse :: inUse[name] + Used(rows[i..], pools, name) == Used(rows, pools, name)
    {
      forall name ensures Used(rows[i..], pools, name) ==
        (if Uses(rows[i], pools, name) then 1 else 0) + Used(rows[i + 1..], pools, name)
      {
        UsedNext(rows, i, pools, name);
      }
      if !rows[i].reservation {
        var home := Home(pools, rows[i].id.address);
        if home.Some? {
          assert home.value in inUse;
          inUse := inUse[home.value := inUse[home.value] + 1];
        }
      }
      i := i + 1;
    }
  }

  /** The lease view of one lease file. */
  function View(ids: seq<Ident>, pools: seq<Pool>): seq<Lease> {
    Sorted(Merge(Parsed(ids, pools), Claims(pools)))
  }

  method Snapshot(ids: seq<Ident>, pools: seq<Pool>) returns (inUse: map<string, nat>, leases: seq<Lease>)
    ensures leases == View(ids, pools) && Ordered(leases)
    ensures inUse == Usage(leases, pools)
  {
    var rows := MergeReservations(Parsed(ids, pools), pools);
    inUse := CountUse(rows, pools);
    leases := Sorted(rows);
    SortOrders(rows);
    forall name ensures Used(leases, pools, name) == Used(rows, pools, name) {
      SortCounts(rows, pools, name);
    }
  }

  lemma IdsCons(row: Lease, rows: seq<Lease>)
    ensures multiset(Ids([row] + rows)) == multiset(Ids(rows)) + multiset{row.id}
  {
    assert Ids([row] + rows) == [row.id] + Ids(rows);
  }

  lemma {:induction false} InsertIds(row: Lease, rows: seq<Lease>)
    ensures multiset(Ids(Insert(row, rows))) == multiset(Ids(rows)) + multiset{row.id}
  {
    if rows == [] || RowLeq(row, rows[0]) {
      IdsCons(row, rows);
    } else {
      InsertIds(row, rows[1..]);
      IdsCons(rows[0], rows[1..]);
      IdsCons(rows[0], Insert(row, rows[1..]));
      assert rows == [rows[0]] + rows[1..];
    }
  }

  lemma {:induction false} SortIds(rows: seq<Lease>)
    ensures multiset(Ids(Sorted(rows))) == multiset(Ids(rows))
  {
    if rows == [] {
      assert Sorted(rows) == rows;
    } else {
      SortIds(rows[1..]);
      InsertIds(rows[0], Sorted(rows[1..]));
      IdsCons(rows[0], rows[1..]);
      assert rows == [rows[0]] + rows[1..];
    }
  }

  /** What the view shows: the leases as parsed, and the reservations nobody has asked for. */
  lemma ViewConserves(ids: seq<Ident>, pools: seq<Pool>)
    ensures multiset(Ids(View(ids, pools))) == multiset(ids) + multiset(Added(ids, Claims(pools)))
  {
    MergeConserves(Parsed(ids, pools), Claims(pools));
    SortIds(Merge(Parsed(ids, pools), Claims(pools)));
  }

  lemma {:induction false} PoolClaimsHas(name: string, reservations: seq<(string, Addr)>, r: (string, Addr))
    requires r in reservations
    ensures Claim(name, r.0, r.1) in PoolClaims(name, reservations)
  {
    if r != reservations[0] { PoolClaimsHas(name, reservations[1..], r); }
  }

  /** Every reservation of every pool is merged. */
  lemma {:induction false} ClaimsHas(pools: seq<Pool>, p: Pool, r: (string, Addr))
    requires p in pools && r in p.reservations
    ensures Claim(p.name, r.0, r.1) in Claims(pools)
  {
    if p == pools[0] {
      PoolClaimsHas(p.name, p.reservations, r);
    } else {
      ClaimsHas(pools[1..], p, r);
    }
  }

  /** Every reservation of every pool is in the view, on a row marked as reserved with its address or its MAC. */
  lemma ViewReserves(ids: seq<Ident>, pools: seq<Pool>, p: Pool, r: (string, Addr))
    requires p in pools && r in p.reservations
    ensures exists row <- View(ids, pools) :: row.reservation && (row.id.mac == r.0 || row.id.address == r.1)
  {
    ClaimsHas(pools, p, r);
    var c := Claim(p.name, r.0, r.1);
    var rows := Merge(Parsed(ids, pools), Claims(pools));
    MergeReserves(Parsed(ids, pools), Claims(pools), c);
    var row := rows[First(Ids(rows), c)];
    assert row in multiset(rows) && row in multiset(View(ids, pools));
  }
}
