/**
 * DHCP pools (hemlock-mgmtd, intents.rs): subnet arithmetic on 32-bit masks and
 * the validation of a whole set of pools.
 */
module DhcpPools {
  import opened Basics

  /** An IPv4 address as its 32-bit number. */
  type Addr = x: nat | x < 0x1_0000_0000

  datatype Subnet = Subnet(base: Addr, len: nat)

  const WORD := 0x1_0000_0000

  /** Bitwise conjunction, bit by bit. */
  function And(x: nat, y: nat): nat {
    if x == 0 || y == 0 then 0 else 2 * And(x / 2, y / 2) + if x % 2 == 1 && y % 2 == 1 then 1 else 0
  }

  /** A left shift in 32 bits: each step drops the top bit. */
  function ShiftLeft(x: nat, bits: nat): nat
    decreases bits
  {
    if bits == 0 then x else ShiftLeft(2 * x % WORD, bits - 1)
  }

  /** `u32::MAX << bits`. */
  function Mask(bits: nat): nat {
    ShiftLeft(WORD - 1, bits)
  }

  /** Host bits of a prefix; lengths past 32 count as 32. */
  function HostBits(len: nat): (s: nat)
    ensures s <= 32
  {
    if len > 32 then 0 else 32 - len
  }

  predicate InSubnet(address: Addr, subnet: Subnet) {
    subnet.len == 0 || And(address, Mask(HostBits(subnet.len))) == And(subnet.base, Mask(HostBits(subnet.len)))
  }

  predicate Overlap(left: Subnet, right: Subnet) {
    InSubnet(right.base, left) || InSubnet(left.base, right)
  }

  // ---------------------------------------------------------------- networks as what is left of an address

  function ShiftRight(x: nat, bits: nat): nat {
    if bits == 0 then x else ShiftRight(x / 2, bits - 1)
  }

  lemma {:induction false} PowerMonotone(m: nat, n: nat)
    requires m <= n
    ensures Power(m) <= Power(n)
    decreases n
  {
    if m < n { PowerMonotone(m, n - 1); }
  }

  lemma {:induction false} PowerSum(m: nat, n: nat)
    ensures Power(m + n) == Power(m) * Power(n)
    decreases m
  {
    if m != 0 { PowerSum(m - 1, n); }
  }

  lemma WordIsPower()
    ensures Power(32) == WORD
  {
    assert Power(4) == 16;
    PowerSum(4, 4);
    PowerSum(8, 8);
    PowerSum(16, 16);
  }

  /** Ones above zeros, in a word of some width. */
  function Ones(width: nat, zeros: nat): nat
    requires zeros <= width
  {
    PowerMonotone(zeros, width);
    Power(width) - Power(zeros)
  }

  lemma {:induction false} MaskIs(width: nat, from: nat, bits: nat)
    requires Power(width) == WORD && from + bits <= width
    ensures ShiftLeft(Ones(width, from), bits) == Ones(width, from + bits)
    decreases bits
  {
    if bits != 0 {
      PowerMonotone(from + 1, width);
      assert Power(from + 1) == 2 * Power(from);
      assert 2 * Ones(width, from) == WORD + Ones(width, from + 1);
      MaskIs(width, from + 1, bits - 1);
    }
  }

  /** The low bits cleared, one after the other. */
  function ClearLow(x: nat, bits: nat): nat {
    if bits == 0 then x else 2 * ClearLow(x / 2, bits - 1)
  }

  lemma {:induction false} AndOnes(x: nat, width: nat)
    requires x < Power(width)
    ensures And(x, Power(width) - 1) == x
    decreases width
  {
    if width != 0 && x != 0 {
      AndOnes(x / 2, width - 1);
      assert (Power(width) - 1) / 2 == Power(width - 1) - 1 && (Power(width) - 1) % 2 == 1;
    }
  }

  /** Masking is clearing low bits. */
  lemma {:induction false} AndClears(x: nat, width: nat, bits: nat)
    requires bits <= width && x < Power(width)
    ensures And(x, Ones(width, bits)) == ClearLow(x, bits)
    decreases bits
  {
    if bits == 0 {
      AndOnes(x, width);
    } else {
      AndClears(x / 2, width - 1, bits - 1);
      assert Ones(width, bits) == 2 * Ones(width - 1, bits - 1);
    }
  }

  lemma Masked(x: Addr, width: nat, bits: nat)
    requires Power(width) == WORD && bits <= width
    ensures And(x, Mask(bits)) == ClearLow(x, bits)
  {
    assert Ones(width, 0) == WORD - 1;
    MaskIs(width, 0, bits);
    AndClears(x, width, bits);
  }

  /** The machine's mask clears the host bits. */
  lemma MaskClears(x: Addr, bits: nat)
    requires bits <= 32
    ensures And(x, Mask(bits)) == ClearLow(x, bits)
  {
    WordIsPower();
    Masked(x, 32, bits);
  }

  lemma {:induction false} SameCleared(x: nat, y: nat, bits: nat)
    ensures ClearLow(x, bits) == ClearLow(y, bits) <==> ShiftRight(x, bits) == ShiftRight(y, bits)
    decreases bits
  {
    if bits != 0 { SameCleared(x / 2, y / 2, bits - 1); }
  }

  /** Two addresses agree under the mask exactly when they agree above the host bits. */
  lemma SameNetwork(x: Addr, y: Addr, bits: nat)
    requires bits <= 32
    ensures And(x, Mask(bits)) == And(y, Mask(bits)) <==> ShiftRight(x, bits) == ShiftRight(y, bits)
  {
    MaskClears(x, bits);
    MaskClears(y, bits);
    SameCleared(x, y, bits);
  }

  lemma {:induction false} ShiftMonotone(x: nat, y: nat, bits: nat)
    requires x <= y
    ensures ShiftRight(x, bits) <= ShiftRight(y, bits)
    decreases bits
  {
    if bits != 0 { ShiftMonotone(x / 2, y / 2, bits - 1); }
  }

  lemma {:induction false} ShiftKeepsEqual(x: nat, y: nat, bits: nat, more: nat)
    requires bits <= more && ShiftRight(x, bits) == ShiftRight(y, bits)
    ensures ShiftRight(x, more) == ShiftRight(y, more)
    decreases more
  {
    if bits != 0 { ShiftKeepsEqual(x / 2, y / 2, bits - 1, more - 1); }
  }

  /** A network is convex: what lies between two of its addresses is in it. */
  lemma Sandwiched(lo: Addr, x: Addr, hi: Addr, subnet: Subnet)
    requires lo <= x <= hi && InSubnet(lo, subnet) && InSubnet(hi, subnet)
    ensures InSubnet(x, subnet)
  {
    if subnet.len != 0 {
      var s := HostBits(subnet.len);
      ShiftMonotone(lo, x, s);
      ShiftMonotone(x, hi, s);
      SameNetwork(lo, subnet.base, s);
      SameNetwork(hi, subnet.base, s);
      SameNetwork(x, subnet.base, s);
    }
  }

  /** The narrower of two networks that meet lies inside the wider one. */
  lemma Meet(x: Addr, wide: Subnet, narrow: Subnet)
    requires InSubnet(x, wide) && InSubnet(x, narrow)
    requires HostBits(narrow.len) <= HostBits(wide.len)
    ensures InSubnet(narrow.base, wide)
  {
    if wide.len != 0 {
      var s, t := HostBits(narrow.len), HostBits(wide.len);
      assert narrow.len != 0;
      SameNetwork(x, narrow.base, s);
      ShiftKeepsEqual(x, narrow.base, s, t);
      SameNetwork(x, wide.base, t);
      SameNetwork(narrow.base, wide.base, t);
    }
  }

  /** The overlap test is exact. */
  lemma OverlapIff(left: Subnet, right: Subnet)
    ensures Overlap(left, right) <==> exists x :: InSubnet(x, left) && InSubnet(x, right)
  {
    if InSubnet(right.base, left) {
      assert InSubnet(right.base, right);
    }
    if InSubnet(left.base, right) {
      assert InSubnet(left.base, left);
    }
    if x :| InSubnet(x, left) && InSubnet(x, right) {
      if HostBits(right.len) <= HostBits(left.len) {
        Meet(x, left, right);
      } else {
        Meet(x, right, left);
      }
    }
  }

  // ---------------------------------------------------------------- pools

  /** The extractor rejects a range that runs backwards. */
  type Range = r: (Addr, Addr) | r.0 <= r.1 witness (0, 0)

  datatype Pool = Pool(
    network: Option<Subnet>, range: Option<Range>, gateway: Option<Addr>, reservations: map<string, Addr>)

  /** A pool that can answer, with every address it names inside its network. */
  predicate PoolOk(pool: Pool) {
    pool.network.Some? && pool.range.Some? && pool.gateway.Some? &&
    InSubnet(pool.range.value.0, pool.network.value) &&
    InSubnet(pool.range.value.1, pool.network.value) &&
    InSubnet(pool.gateway.value, pool.network.value) &&
    forall mac <- pool.reservations :: InSubnet(pool.reservations[mac], pool.network.value)
  }

  /** Two pools collide on their networks or on a reserved MAC. */
  predicate Clash(a: Pool, b: Pool)
    requires a.network.Some? && b.network.Some?
  {
    Overlap(a.network.value, b.network.value) || exists mac <- a.reservations :: mac in b.reservations
  }

  ghost predicate PoolsOk(pools: map<string, Pool>, names: set<string>)
    requires names <= pools.Keys
  {
    (forall name <- names :: PoolOk(pools[name])) &&
    forall a, b :: a in names && b in names && a != b ==> !Clash(pools[a], pools[b])
  }

  /** No relaying VLAN's own address is served by a pool. */
  ghost predicate Unserved(pools: map<string, Pool>, relay: Addr) {
    forall name <- pools :: pools[name].network.Some? ==> !InSubnet(relay, pools[name].network.value)
  }

  ghost predicate RelaysOk(pools: map<string, Pool>, relays: set<Addr>) {
    forall relay <- relays :: Unserved(pools, relay)
  }

  ghost predicate Accepted(pools: map<string, Pool>, relays: set<Addr>) {
    PoolsOk(pools, pools.Keys) && RelaysOk(pools, relays)
  }

  predicate InRange(x: Addr, pool: Pool) {
    pool.range.Some? && pool.range.value.0 <= x <= pool.range.value.1
  }

  /** Inside an accepted pool, dynamic addresses are addresses of its network. */
  lemma RangeInNetwork(pool: Pool, x: Addr)
    requires PoolOk(pool) && InRange(x, pool)
    ensures InSubnet(x, pool.network.value)
  {
    Sandwiched(pool.range.value.0, x, pool.range.value.1, pool.network.value);
  }

  /** In an accepted configuration no address, dynamic or reserved, belongs to two pools. */
  lemma PoolsAreDisjoint(pools: map<string, Pool>, relays: set<Addr>, a: string, b: string, x: Addr)
    requires Accepted(pools, relays) && a in pools && b in pools && a != b
    ensures !(InSubnet(x, pools[a].network.value) && InSubnet(x, pools[b].network.value))
    ensures !(InRange(x, pools[a]) && InRange(x, pools[b]))
    ensures !(InRange(x, pools[a]) && x in pools[b].reservations.Values)
    ensures !(x in pools[a].reservations.Values && x in pools[b].reservations.Values)
  {
    assert !Clash(pools[a], pools[b]);
    OverlapIff(pools[a].network.value, pools[b].network.value);
    if InRange(x, pools[a]) { RangeInNetwork(pools[a], x); }
    if InRange(x, pools[b]) { RangeInNetwork(pools[b], x); }
    if x in pools[a].reservations.Values { assert InSubnet(x, pools[a].network.value); }
    if x in pools[b].reservations.Values { assert InSubnet(x, pools[b].network.value); }
  }

  // ---------------------------------------------------------------- the validator

  datatype PoolError =
    | Missing(name: string)
    | Outside(name: string, address: Addr)
    | MacTaken(name: string, mac: string, other: string)
    | Overlaps(name: string, other: string)
    | RelayServed(relay: Addr, name: string)

  /** The leaves of one pool; `None` when it is fine. */
  method CheckPool(name: string, pool: Pool) returns (e: Option<PoolError>)
    ensures e.None? <==> PoolOk(pool)
  {
    if pool.network.None? || pool.range.None? || pool.gateway.None? {
      return Some(Missing(name));
    }
    var subnet := pool.network.value;
    if !InSubnet(pool.range.value.0, subnet) { return Some(Outside(name, pool.range.value.0)); }
    if !InSubnet(pool.range.value.1, subnet) { return Some(Outside(name, pool.range.value.1)); }
    if !InSubnet(pool.gateway.value, subnet) { return Some(Outside(name, pool.gateway.value)); }
    var left := pool.reservations.Keys;
    while left != {}
      invariant left <= pool.reservations.Keys
      invariant forall mac | mac in pool.reservations && mac !in left :: InSubnet(pool.reservations[mac], subnet)
      decreases |left|
    {
      var mac :| mac in left;
      if !InSubnet(pool.reservations[mac], subnet) {
        return Some(Outside(name, pool.reservations[mac]));
      }
      left := left - {mac};
    }
    e := None;
  }

  /** Reserved MACs seen so far, each with the pool that holds it. */
  ghost predicate Claims(claimed: map<string, string>, pools: map<string, Pool>, done: set<string>)
    requires done <= pools.Keys
  {
    (forall mac <- claimed :: claimed[mac] in done && mac in pools[claimed[mac]].reservations) &&
    forall name <- done, mac <- pools[name].reservations :: mac in claimed
  }

  method ClaimMacs(name: string, pools: map<string, Pool>, before: map<string, string>, ghost done: set<string>)
    returns (e: Option<PoolError>, claimed: map<string, string>)
    requires done <= pools.Keys && name in pools && name !in done && Claims(before, pools, done)
    ensures e.None? <==> forall other <- done, mac <- pools[name].reservations :: mac !in pools[other].reservations
    ensures e.None? ==> Claims(claimed, pools, done + {name})
  {
    claimed := before;
    var left := pools[name].reservations.Keys;
    while left != {}
      invariant left <= pools[name].reservations.Keys
      invariant forall mac <- claimed :: claimed[mac] in done + {name} && mac in pools[claimed[mac]].reservations
      invariant forall mac <- claimed :: claimed[mac] == name ==> mac !in left
      invariant forall mac | mac in pools[name].reservations && mac !in left :: mac in claimed && mac !in before
      invariant forall mac <- before :: mac in claimed
      invariant forall mac <- claimed :: mac !in before ==> claimed[mac] == name
      decreases |left|
    {
      var mac :| mac in left;
      if mac in claimed {
        assert claimed[mac] in done;
        return Some(MacTaken(name, mac, claimed[mac])), claimed;
      }
      claimed := claimed[mac := name];
      left := left - {mac};
    }
    e := None;
  }

  method FindOverlap(name: string, pools: map<string, Pool>, done: set<string>) returns (e: Option<PoolError>)
    requires name in pools && pools[name].network.Some? && done <= pools.Keys
    requires forall other <- done :: pools[other].network.Some?
    ensures e.None? <==> forall other <- done :: !Overlap(pools[name].network.value, pools[other].network.value)
  {
    var left := done;
    while left != {}
      invariant left <= done
      invariant forall other <- done - left :: !Overlap(pools[name].network.value, pools[other].network.value)
      decreases |left|
    {
      var other :| other in left;
      if Overlap(pools[name].network.value, pools[other].network.value) {
        return Some(Overlaps(name, other));
      }
      left := left - {other};
    }
    e := None;
  }

  lemma ClashSymmetric(a: Pool, b: Pool)
    requires a.network.Some? && b.network.Some?
    ensures Clash(a, b) == Clash(b, a)
  {
    if Clash(a, b) && !Overlap(a.network.value, b.network.value) {
      var mac :| mac in a.reservations && mac in b.reservations;
      assert mac in b.reservations;
    }
    if Clash(b, a) && !Overlap(b.network.value, a.network.value) {
      var mac :| mac in b.reservations && mac in a.reservations;
      assert mac in a.reservations;
    }
  }

  lemma OneMorePool(pools: map<string, Pool>, done: set<string>, name: string)
    requires done <= pools.Keys && name in pools && name !in done && PoolsOk(pools, done)
    ensures PoolsOk(pools, done + {name}) <==>
      PoolOk(pools[name]) && forall other <- done :: !Clash(pools[name], pools[other])
  {
    if PoolOk(pools[name]) {
      forall other | other in done ensures Clash(pools[name], pools[other]) == Clash(pools[other], pools[name]) {
        ClashSymmetric(pools[name], pools[other]);
      }
    }
  }

  lemma FewerPools(pools: map<string, Pool>, names: set<string>)
    requires names <= pools.Keys && PoolsOk(pools, pools.Keys)
    ensures PoolsOk(pools, names)
  {
  }

  /** One turn of the validator: is the pool fine beside those already accepted? */
  method AdmitPool(name: string, pools: map<string, Pool>, before: map<string, string>, done: set<string>)
    returns (e: Option<PoolError>, claimed: map<string, string>)
    requires done <= pools.Keys && name in pools && name !in done && PoolsOk(pools, done) && Claims(before, pools, done)
    ensures e.None? ==> PoolsOk(pools, done + {name}) && Claims(claimed, pools, done + {name})
    ensures e.Some? ==> !PoolsOk(pools, pools.Keys)
  {
    OneMorePool(pools, done, name);
    if PoolsOk(pools, pools.Keys) { FewerPools(pools, done + {name}); }
    claimed := before;
    e := CheckPool(name, pools[name]);
    if e.None? {
      e, claimed := ClaimMacs(name, pools, before, done);
      if e.None? {
        e := FindOverlap(name, pools, done);
      }
    }
  }

  method FindServer(pools: map<string, Pool>, relay: Addr) returns (e: Option<PoolError>)
    ensures e.None? <==> Unserved(pools, relay)
  {
    var left := pools.Keys;
    while left != {}
      invariant left <= pools.Keys
      invariant forall name | name in pools && name !in left ::
        pools[name].network.Some? ==> !InSubnet(relay, pools[name].network.value)
      decreases |left|
    {
      var name :| name in left;
      if pools[name].network.Some? && InSubnet(relay, pools[name].network.value) {
        return Some(RelayServed(relay, name));
      }
      left := left - {name};
    }
    e := None;
  }

  method FindServedRelay(pools: map<string, Pool>, relays: set<Addr>) returns (e: Option<PoolError>)
    ensures e.None? <==> RelaysOk(pools, relays)
  {
    var left := relays;
    while left != {}
      invariant left <= relays && RelaysOk(pools, relays - left)
      decreases |left|
    {
      var relay :| relay in left;
      e := FindServer(pools, relay);
      if e.Some? {
        return;
      }
      left := left - {relay};
    }
    e := None;
  }

  /** The validator accepts exactly the configurations the declarative conditions describe. */
  method ValidatePools(pools: map<string, Pool>, relays: set<Addr>) returns (e: Option<PoolError>)
    ensures e.None? <==> Accepted(pools, relays)
  {
    var left, claimed := pools.Keys, map[];
    var done: set<string> := {};
    while left != {}
      invariant done !! left && done + left == pools.Keys
      invariant PoolsOk(pools, done) && Claims(claimed, pools, done)
      decreases left
    {
      var name :| name in left;
      e, claimed := AdmitPool(name, pools, claimed, done);
      if e.Some? {
        return;
      }
      left, done := left - {name}, done + {name};
    }
    assert done == pools.Keys;
    e := FindServedRelay(pools, relays);
  }
}
