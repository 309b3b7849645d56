/**
 * The legacy-form migration (hemlock-config, tree.rs `normalize_interfaces`) and
 * what the intent extractor (hemlock-mgmtd, intents.rs) reads from an interface
 * before and after it.
 */
module Migration {
  import opened Basics
  import opened ConfigTree
  import Decimal
  import ValueList

  // ---------------------------------------------------------------- tree queries

  predicate IsLeaf(item: Item, name: string) {
    item.Leaf? && item.name == name
  }

  predicate IsPhrase(item: Item, first: string, second: string) {
    IsLeaf(item, first) && item.values != [] && item.values[0] == second
  }

  predicate HasLeaf(items: seq<Item>, name: string) {
    items != [] && (IsLeaf(items[0], name) || HasLeaf(items[1..], name))
  }

  /** First value of the first leaf of that name that has one. */
  function LeafValue(items: seq<Item>, name: string): Option<string> {
    if items == [] then None
    else if IsLeaf(items[0], name) && items[0].values != [] then Some(items[0].values[0])
    else LeafValue(items[1..], name)
  }

  function LeafValues(items: seq<Item>, name: string): Option<seq<string>> {
    if items == [] then None
    else if IsLeaf(items[0], name) then Some(items[0].values)
    else LeafValues(items[1..], name)
  }

  /** The values after the first two-word phrase `first second`. */
  function PhraseValues(items: seq<Item>, first: string, second: string): Option<seq<string>> {
    if items == [] then None
    else if IsPhrase(items[0], first, second) then Some(items[0].values[1..])
    else PhraseValues(items[1..], first, second)
  }

  /** Children of the first block of that name. */
  function FirstBlock(items: seq<Item>, name: string): Option<seq<Item>> {
    if items == [] then None
    else if items[0].Block? && items[0].name == name then Some(items[0].children)
    else FirstBlock(items[1..], name)
  }

  // ---------------------------------------------------------------- the migration

  function MapItems(f: Item -> Item, items: seq<Item>): (r: seq<Item>)
    ensures |r| == |items|
  {
    if items == [] then [] else [f(items[0])] + MapItems(f, items[1..])
  }

  const NO_SHUTDOWN := Leaf("no", ["shutdown"])

  function AdminLeaf(item: Item): Item {
    if IsLeaf(item, "no-shutdown") then NO_SHUTDOWN
    else if IsPhrase(item, "admin-state", "enabled") then NO_SHUTDOWN
    else if IsPhrase(item, "admin-state", "disabled") then Leaf("shutdown", [])
    else item
  }

  function SwitchportLeaf(item: Item): Item {
    if IsLeaf(item, "access-vlan") then Leaf("access", ["vlan"] + item.values)
    else if IsLeaf(item, "trunk-vlans") then Leaf("trunk", ["vlans"] + item.values)
    else if IsLeaf(item, "native-vlan") then Leaf("native", ["vlan"] + item.values)
    else item
  }

  function SwitchportBlock(item: Item): Item {
    if item.Block? && item.name == "switchport"
    then item.(children := MapItems(SwitchportLeaf, item.children))
    else item
  }

  function InterfaceChildren(children: seq<Item>): seq<Item> {
    MapItems(SwitchportBlock, MapItems(AdminLeaf, children))
  }

  /** `ethernet <name> { }` and `management <name> { }` become `<name> { }`. */
  function InterfaceBlock(item: Item): Item {
    if item.Leaf? then item
    else
      var children := InterfaceChildren(item.children);
      if item.name in {"ethernet", "management"} && |item.keys| == 1
      then Block(item.keys[0], [], children)
      else item.(children := children)
  }

  function TopBlock(item: Item): Item {
    if item.Block? && item.name == "interfaces"
    then item.(children := MapItems(InterfaceBlock, item.children))
    else item
  }

  function Normalized(items: seq<Item>): seq<Item> {
    MapItems(TopBlock, items)
  }

  // ---------------------------------------------------------------- what the extractor reads

  datatype Kind = Port | Management | Vlan | Lag

  datatype Identity =
    | Known(kind: Kind, ifname: string)
    | NeedsOneKey(block: string)
    | Unrecognized(block: string)

  function Classify(name: string, keys: seq<string>): Identity {
    if name in {"ethernet", "management"} then
      if |keys| == 1 then Known(if name == "ethernet" then Port else Management, keys[0]) else NeedsOneKey(name)
    else if keys != [] then Unrecognized(name)
    else if "Management" <= name then Known(Management, name)
    else if "Ethernet" <= name then Known(Port, name)
    else if "Vlan" <= name then Known(Vlan, name)
    else if "Port-Channel" <= name then Known(Lag, name)
    else Unrecognized(name)
  }

  datatype AdminError = BothMarkers | BadAdminState(value: string)

  predicate NoShutdown(items: seq<Item>) {
    PhraseValues(items, "no", "shutdown").Some? || HasLeaf(items, "no-shutdown")
  }

  /** Three spellings of the administrative state, markers before `admin-state`. */
  function AdminState(items: seq<Item>): Result<Option<bool>, AdminError> {
    var shutdown, noShutdown := HasLeaf(items, "shutdown"), NoShutdown(items);
    if shutdown && noShutdown then Err(BothMarkers)
    else if shutdown then Ok(Some(false))
    else if noShutdown then Ok(Some(true))
    else match LeafValue(items, "admin-state")
      case None => Ok(None)
      case Some(value) =>
        if value == "enabled" then Ok(Some(true))
        else if value == "disabled" then Ok(Some(false))
        else Err(BadAdminState(value))
  }

  function Head(values: Option<seq<string>>): Option<string> {
    if values.None? || values.value == [] then None else Some(values.value[0])
  }

  function OrElse<T>(a: Option<T>, b: Option<T>): Option<T> {
    if a.Some? then a else b
  }

  function VlanId(text: string): Option<nat> {
    var id := Decimal.Read(text, 65535);
    if id.Some? && 1 <= id.value <= 4094 then id else None
  }

  function ReadVlan(text: Option<string>): Result<Option<nat>, string> {
    if text.None? then Ok(None) else if VlanId(text.value).Some? then Ok(VlanId(text.value)) else Err(text.value)
  }

  /** The comma-separated parts of all words, empty ones dropped. */
  function Parts(values: seq<string>): seq<string> {
    if values == [] then [] else NonEmpty(ValueList.Split(values[0])) + Parts(values[1..])
  }

  function NonEmpty(parts: seq<string>): seq<string> {
    if parts == [] then [] else (if parts[0] == "" then [] else [parts[0]]) + NonEmpty(parts[1..])
  }

  /** A sorted list without repetitions, as the set it lists; the first bad part otherwise. */
  function VlanSet(parts: seq<string>): Result<set<nat>, string> {
    if parts == [] then Ok({})
    else if VlanId(parts[0]).None? then Err(parts[0])
    else match VlanSet(parts[1..])
      case Err(bad) => Err(bad)
      case Ok(ids) => Ok({VlanId(parts[0]).value} + ids)
  }

  function ReadTrunk(values: Option<seq<string>>): Result<set<nat>, string> {
    if values.None? then Ok({}) else VlanSet(Parts(values.value))
  }

  datatype Mode = Access | Trunk | Tunnel

  datatype Switchport = Switchport(mode: Mode, access: Option<nat>, trunk: set<nat>, native: Option<nat>)

  datatype SwitchportError = BadMode(text: string) | TunnelWithTrunk | BadVlan(text: string)

  function ReadMode(text: Option<string>): Result<Mode, SwitchportError> {
    if text.None? || text.value == "access" then Ok(Access)
    else if text.value == "trunk" then Ok(Trunk)
    else if text.value == "dot1q-tunnel" then Ok(Tunnel)
    else Err(BadMode(text.value))
  }

  /** A VLAN setting: the phrase form first, the hyphenated leaf otherwise. */
  function VlanText(sp: seq<Item>, first: string, second: string, legacy: string): Option<string> {
    OrElse(Head(PhraseValues(sp, first, second)), LeafValue(sp, legacy))
  }

  function TrunkValues(sp: seq<Item>): Option<seq<string>> {
    OrElse(PhraseValues(sp, "trunk", "vlans"), LeafValues(sp, "trunk-vlans"))
  }

  predicate TrunkConfigured(sp: seq<Item>) {
    PhraseValues(sp, "trunk", "vlans").Some? || PhraseValues(sp, "native", "vlan").Some? ||
    LeafValues(sp, "trunk-vlans").Some? || LeafValue(sp, "native-vlan").Some?
  }

  /** The first text the extractor cannot parse: trunk list, access VLAN, native VLAN. */
  function FirstBad(trunk: Option<seq<string>>, access: Option<string>, native: Option<string>): Option<string> {
    if ReadTrunk(trunk).Err? then Some(ReadTrunk(trunk).error)
    else if ReadVlan(access).Err? then Some(ReadVlan(access).error)
    else if ReadVlan(native).Err? then Some(ReadVlan(native).error)
    else None
  }

  function Settle(mode: Mode, trunk: Option<seq<string>>, access: Option<string>, native: Option<string>)
    : Result<Switchport, SwitchportError>
  {
    var bad := FirstBad(trunk, access, native);
    if bad.Some? then Err(BadVlan(bad.value))
    else Ok(Switchport(mode, ReadVlan(access).value, ReadTrunk(trunk).value, ReadVlan(native).value))
  }

  function SwitchportOf(sp: seq<Item>): Result<Switchport, SwitchportError> {
    match ReadMode(LeafValue(sp, "mode"))
    case Err(e) => Err(e)
    case Ok(mode) =>
      if mode == Tunnel && TrunkConfigured(sp) then Err(TunnelWithTrunk)
      else
        Settle(
          mode, TrunkValues(sp),
          VlanText(sp, "access", "vlan", "access-vlan"), VlanText(sp, "native", "vlan", "native-vlan"))
  }

  /** Why an interface is refused. */
  datatype Refusal =
    | BadBlock(identity: Identity)
    | BadAdmin(ifname: string, admin: AdminError)
    | BadNumber(ifname: string)
    | BadSwitchport(ifname: string, switchport: SwitchportError)
    | NotASwitchport(kind: Kind, ifname: string)
    | Duplicate(ifname: string)

  predicate PortLike(kind: Kind) { kind == Port || kind == Lag }

  /** `Vlan<id>` and `Port-Channel<n>` carry a number in range; other names are free. */
  function Number(kind: Kind, ifname: string): Option<nat> {
    var prefix, max := if kind == Lag then "Port-Channel" else "Vlan", if kind == Lag then 64 else 4094;
    if !(prefix <= ifname) then None
    else
      var n := Decimal.Read(ifname[|prefix|..], 65535);
      if n.Some? && 1 <= n.value <= max then n else None
  }

  predicate NameOk(kind: Kind, ifname: string) {
    kind == Port || kind == Management || Number(kind, ifname).Some?
  }

  /** Ports and groups have switchport settings; the block itself is refused elsewhere. */
  function ReadSwitchport(kind: Kind, ifname: string, sp: Option<seq<Item>>): Result<Option<Switchport>, Refusal> {
    if !NameOk(kind, ifname) then Err(BadNumber(ifname))
    else if sp.None? then Ok(None)
    else if !PortLike(kind) then Err(NotASwitchport(kind, ifname))
    else match SwitchportOf(sp.value)
      case Err(e) => Err(BadSwitchport(ifname, e))
      case Ok(settings) => Ok(Some(settings))
  }

  /** Everything the extractor keeps that the migration could touch; a VLAN interface keeps no admin state. */
  datatype Reading = Reading(kind: Kind, ifname: string, admin: Option<bool>, switchport: Option<Switchport>)

  function Read(item: Item): Result<Reading, Refusal>
    requires item.Block?
  {
    match Classify(item.name, item.keys)
    case Known(kind, ifname) => (
      match AdminState(item.children)
      case Err(e) => Err(BadAdmin(ifname, e))
      case Ok(up) => (
        match ReadSwitchport(kind, ifname, FirstBlock(item.children, "switchport"))
        case Err(e) => Err(e)
        case Ok(sp) => Ok(Reading(kind, ifname, if kind == Vlan then None else up, sp))))
    case other => Err(BadBlock(other))
  }

  /** What an interface is filed under: its name, or a group's number. */
  datatype Key = Named(kind: Kind, ifname: string) | Group(n: nat)

  function KeyOf(r: Reading): Key {
    if r.kind == Lag && Number(Lag, r.ifname).Some? then Group(Number(Lag, r.ifname).value) else Named(r.kind, r.ifname)
  }

  /** What was read, interface by interface, and the refusal that ended it, if any. */
  datatype Progress = Progress(readings: seq<Reading>, refusal: Option<Refusal>)

  function Push(r: Reading, p: Progress): Progress {
    Progress([r] + p.readings, p.refusal)
  }

  /** The interface blocks in order; leaves among them are skipped. */
  function ReadAll(items: seq<Item>, seen: set<Key>): Progress {
    if items == [] then Progress([], None)
    else if items[0].Leaf? then ReadAll(items[1..], seen)
    else match Read(items[0])
      case Err(e) => Progress([], Some(e))
      case Ok(r) =>
        if KeyOf(r) in seen then Progress([r], Some(Duplicate(r.ifname)))
        else Push(r, ReadAll(items[1..], seen + {KeyOf(r)}))
  }

  function Extraction(tree: seq<Item>): Progress {
    match FirstBlock(tree, "interfaces") case None => Progress([], None) case Some(items) => ReadAll(items, {})
  }

  /** The extractor's answer: all interfaces or the first refusal. */
  function Extracted(tree: seq<Item>): Result<seq<Reading>, Refusal> {
    var p := Extraction(tree);
    if p.refusal.Some? then Err(p.refusal.value) else Ok(p.readings)
  }

  // ---------------------------------------------------------------- when the migration changes nothing

  /** Legacy keys must already look like the interface names they become. */
  predicate KeyStable(item: Item)
    requires item.Block?
  {
    (item.name == "ethernet" && |item.keys| == 1 ==> "Ethernet" <= item.keys[0]) &&
    (item.name == "management" && |item.keys| == 1 ==> "Management" <= item.keys[0])
  }

  predicate HasPhrase(items: seq<Item>, first: string, second: string) {
    items != [] && (IsPhrase(items[0], first, second) || HasPhrase(items[1..], first, second))
  }

  /** No two spellings disagree, and no invalid `admin-state` hides a valid one. */
  predicate AdminStable(items: seq<Item>) {
    var shutdown, noShutdown := HasLeaf(items, "shutdown"), NoShutdown(items);
    var enabled, disabled := HasPhrase(items, "admin-state", "enabled"), HasPhrase(items, "admin-state", "disabled");
    var first := LeafValue(items, "admin-state");
    (shutdown && noShutdown) ||
    (!((shutdown || disabled) && (noShutdown || enabled)) &&
     (!shutdown && !noShutdown && first.Some? && first.value !in {"enabled", "disabled"} ==> !enabled && !disabled))
  }

  /** Values of whichever spelling of a setting is written first. */
  function FirstWritten(sp: seq<Item>, first: string, second: string, legacy: string): Option<seq<string>> {
    if sp == [] then None
    else if IsPhrase(sp[0], first, second) then Some(sp[0].values[1..])
    else if IsLeaf(sp[0], legacy) then Some(sp[0].values)
    else FirstWritten(sp[1..], first, second, legacy)
  }

  /** One spelling says up and another says down. */
  predicate AdminClash(items: seq<Item>) {
    (HasLeaf(items, "shutdown") || HasPhrase(items, "admin-state", "disabled")) &&
    (NoShutdown(items) || HasPhrase(items, "admin-state", "enabled"))
  }

  /** The spelling written first says what the spelling the extractor prefers says, or both are refused alike. */
  predicate SwitchportStable(sp: seq<Item>) {
    var mode := ReadMode(LeafValue(sp, "mode"));
    var trunk, access, native := FirstWritten(sp, "trunk", "vlans", "trunk-vlans"),
      Head(FirstWritten(sp, "access", "vlan", "access-vlan")), FirstWritten(sp, "native", "vlan", "native-vlan");
    if mode.Err? then true
    else if mode.value == Tunnel && (trunk.Some? || native.Some?) then TrunkConfigured(sp)
    else
      SettingsAgree(
        trunk, access, Head(native),
        TrunkValues(sp), VlanText(sp, "access", "vlan", "access-vlan"), VlanText(sp, "native", "vlan", "native-vlan"))
  }

  /** The same numbers, or the same first bad text. */
  predicate SettingsAgree(
      trunk: Option<seq<string>>, access: Option<string>, native: Option<string>,
      trunk': Option<seq<string>>, access': Option<string>, native': Option<string>)
  {
    var bad, bad' := FirstBad(trunk, access, native), FirstBad(trunk', access', native');
    if bad.Some? || bad'.Some? then bad == bad'
    else
      ReadTrunk(trunk) == ReadTrunk(trunk') &&
      ReadVlan(access) == ReadVlan(access') && ReadVlan(native) == ReadVlan(native')
  }

  /** The switchport is read the same when the interface is taken for another kind. */
  predicate SwitchportKept(kind: Kind, after: Kind, ifname: string, sp: Option<seq<Item>>) {
    if kind == after then NameOk(kind, ifname) && PortLike(kind) && sp.Some? ==> SwitchportStable(sp.value)
    else NameOk(after, ifname) && (sp.None? || (PortLike(kind) && PortLike(after) && SwitchportStable(sp.value)))
  }

  function Renamed(item: Item): Identity
    requires item.Block?
  {
    if item.name in {"ethernet", "management"} && |item.keys| == 1 then Classify(item.keys[0], [])
    else Classify(item.name, item.keys)
  }

  /** An interface reads the same, its refusal included. */
  predicate Stable(item: Item)
    requires item.Block?
  {
    var before, after, sp := Classify(item.name, item.keys), Renamed(item), FirstBlock(item.children, "switchport");
    if !before.Known? then true
    else if !after.Known? then false
    else if AdminState(item.children).Err? then AdminStable(item.children)
    else
      !AdminClash(item.children) && SwitchportKept(before.kind, after.kind, after.ifname, sp) &&
      (ReadSwitchport(before.kind, before.ifname, sp).Err? ||
       (KeyStable(item) && (before.kind == Vlan || AdminStable(item.children))))
  }

  /** Every interface is stable up to the first one refused. */
  predicate AllStable(items: seq<Item>, seen: set<Key>) {
    items != [] ==>
      if items[0].Leaf? then AllStable(items[1..], seen)
      else
        Stable(items[0]) &&
        (Read(items[0]).Err? || KeyOf(Read(items[0]).value) in seen ||
         AllStable(items[1..], seen + {KeyOf(Read(items[0]).value)}))
  }

  lemma KeyIff(item: Item)
    requires item.Block?
    ensures var after := InterfaceBlock(item);
      Classify(after.name, after.keys) == Classify(item.name, item.keys) <==> KeyStable(item)
  {
    if item.name in {"ethernet", "management"} && |item.keys| == 1 {
      var key := item.keys[0];
      assert key == "ethernet" ==> key[0] == 'e';
      assert key == "management" ==> key[0] == 'm';
      assert "Ethernet" <= key ==> key[0] == 'E';
      assert "Management" <= key ==> key[0] == 'M';
    }
  }

  // The administrative state.

  lemma {:induction false} AdminQueries(items: seq<Item>)
    ensures var after := MapItems(AdminLeaf, items);
      && HasLeaf(after, "shutdown") == (HasLeaf(items, "shutdown") || HasPhrase(items, "admin-state", "disabled"))
      && NoShutdown(after) == (NoShutdown(items) || HasPhrase(items, "admin-state", "enabled"))
  {
    if items != [] {
      AdminQueries(items[1..]);
      var after := MapItems(AdminLeaf, items);
      assert after[0] == AdminLeaf(items[0]) && after[1..] == MapItems(AdminLeaf, items[1..]);
    }
  }

  lemma {:induction false} AdminStateLeaves(items: seq<Item>)
    ensures HasPhrase(items, "admin-state", "enabled") || HasPhrase(items, "admin-state", "disabled") ==>
            LeafValue(items, "admin-state").Some?
    ensures LeafValue(items, "admin-state") == Some("enabled") ==> HasPhrase(items, "admin-state", "enabled")
    ensures LeafValue(items, "admin-state") == Some("disabled") ==> HasPhrase(items, "admin-state", "disabled")
    ensures !HasPhrase(items, "admin-state", "enabled") && !HasPhrase(items, "admin-state", "disabled") ==>
            LeafValue(MapItems(AdminLeaf, items), "admin-state") == LeafValue(items, "admin-state")
    ensures var v := LeafValue(MapItems(AdminLeaf, items), "admin-state");
      v.Some? ==> v.value !in {"enabled", "disabled"}
  {
    if items != [] {
      AdminStateLeaves(items[1..]);
      var after := MapItems(AdminLeaf, items);
      assert after[0] == AdminLeaf(items[0]) && after[1..] == MapItems(AdminLeaf, items[1..]);
    }
  }

  lemma {:induction false} SwitchportBlocksKeepLeaves(items: seq<Item>)
    ensures AdminState(MapItems(SwitchportBlock, items)) == AdminState(items)
  {
    SameLeaves(items, "shutdown");
    SameLeaves(items, "no-shutdown");
    SameLeaves(items, "admin-state");
    SamePhrase(items, "no", "shutdown");
  }

  lemma {:induction false} SameLeaves(items: seq<Item>, name: string)
    ensures var after := MapItems(SwitchportBlock, items);
      HasLeaf(after, name) == HasLeaf(items, name) && LeafValue(after, name) == LeafValue(items, name)
  {
    if items != [] {
      SameLeaves(items[1..], name);
      var after := MapItems(SwitchportBlock, items);
      assert after[0] == SwitchportBlock(items[0]) && after[1..] == MapItems(SwitchportBlock, items[1..]);
    }
  }

  lemma {:induction false} SamePhrase(items: seq<Item>, first: string, second: string)
    ensures PhraseValues(MapItems(SwitchportBlock, items), first, second) == PhraseValues(items, first, second)
  {
    if items != [] {
      SamePhrase(items[1..], first, second);
      var after := MapItems(SwitchportBlock, items);
      assert after[0] == SwitchportBlock(items[0]) && after[1..] == MapItems(SwitchportBlock, items[1..]);
    }
  }

  lemma AdminIff(items: seq<Item>)
    ensures AdminState(InterfaceChildren(items)) == AdminState(items) <==> AdminStable(items)
  {
    SwitchportBlocksKeepLeaves(MapItems(AdminLeaf, items));
    AdminQueries(items);
    AdminStateLeaves(items);
  }

  // The switchport block.

  lemma {:induction false} BlocksKept(children: seq<Item>)
    ensures FirstBlock(InterfaceChildren(children), "switchport") ==
      match FirstBlock(children, "switchport") case None => None case Some(sp) => Some(MapItems(SwitchportLeaf, sp))
  {
    if children != [] {
      BlocksKept(children[1..]);
      var admin := MapItems(AdminLeaf, children);
      assert admin[0] == AdminLeaf(children[0]) && admin[1..] == MapItems(AdminLeaf, children[1..]);
      var after := MapItems(SwitchportBlock, admin);
      assert after[0] == SwitchportBlock(admin[0]) && after[1..] == MapItems(SwitchportBlock, admin[1..]);
    }
  }

  predicate Setting(first: string, second: string, legacy: string) {
    (first, second, legacy) in
      {("access", "vlan", "access-vlan"), ("trunk", "vlans", "trunk-vlans"), ("native", "vlan", "native-vlan")}
  }

  /** After the migration the spelling written first is the only one read. */
  lemma {:induction false} PhrasesAfter(sp: seq<Item>, first: string, second: string, legacy: string)
    requires Setting(first, second, legacy)
    ensures var after := MapItems(SwitchportLeaf, sp);
      && PhraseValues(after, first, second) == FirstWritten(sp, first, second, legacy)
      && LeafValues(after, legacy) == None && LeafValue(after, legacy) == None
      && LeafValue(after, "mode") == LeafValue(sp, "mode")
  {
    if sp != [] {
      PhrasesAfter(sp[1..], first, second, legacy);
      var after := MapItems(SwitchportLeaf, sp);
      assert after[0] == SwitchportLeaf(sp[0]) && after[1..] == MapItems(SwitchportLeaf, sp[1..]);
      assert IsLeaf(sp[0], legacy) ==> after[0].values[1..] == sp[0].values;
    }
  }

  lemma {:induction false} WrittenSomewhere(sp: seq<Item>, first: string, second: string, legacy: string)
    ensures FirstWritten(sp, first, second, legacy).Some? <==>
            PhraseValues(sp, first, second).Some? || LeafValues(sp, legacy).Some?
    ensures PhraseValues(sp, first, second).None? ==> FirstWritten(sp, first, second, legacy) == LeafValues(sp, legacy)
    ensures LeafValue(sp, legacy).Some? ==> LeafValues(sp, legacy).Some?
  {
    if sp != [] { WrittenSomewhere(sp[1..], first, second, legacy); }
  }

  lemma SettleIff(
      mode: Mode, trunk: Option<seq<string>>, access: Option<string>, native: Option<string>,
      trunk': Option<seq<string>>, access': Option<string>, native': Option<string>)
    ensures Settle(mode, trunk, access, native) == Settle(mode, trunk', access', native') <==>
      SettingsAgree(trunk, access, native, trunk', access', native')
  {
  }

  lemma SwitchportIff(sp: seq<Item>)
    ensures SwitchportOf(MapItems(SwitchportLeaf, sp)) == SwitchportOf(sp) <==> SwitchportStable(sp)
  {
    SettingsAfter(sp);
    var trunk, access, native := FirstWritten(sp, "trunk", "vlans", "trunk-vlans"),
      Head(FirstWritten(sp, "access", "vlan", "access-vlan")), FirstWritten(sp, "native", "vlan", "native-vlan");
    var mode := ReadMode(LeafValue(sp, "mode"));
    if mode.Ok? {
      SettleIff(
        mode.value, trunk, access, Head(native),
        TrunkValues(sp), VlanText(sp, "access", "vlan", "access-vlan"), VlanText(sp, "native", "vlan", "native-vlan"));
    }
    WrittenSomewhere(sp, "trunk", "vlans", "trunk-vlans");
    WrittenSomewhere(sp, "native", "vlan", "native-vlan");
  }

  /** What the extractor picks after the migration. */
  lemma SettingsAfter(sp: seq<Item>)
    ensures var after := MapItems(SwitchportLeaf, sp);
      var trunk := FirstWritten(sp, "trunk", "vlans", "trunk-vlans");
      var native := FirstWritten(sp, "native", "vlan", "native-vlan");
      && LeafValue(after, "mode") == LeafValue(sp, "mode")
      && TrunkValues(after) == trunk
      && VlanText(after, "access", "vlan", "access-vlan") == Head(FirstWritten(sp, "access", "vlan", "access-vlan"))
      && VlanText(after, "native", "vlan", "native-vlan") == Head(native)
      && TrunkConfigured(after) == (trunk.Some? || native.Some?)
  {
    PhrasesAfter(sp, "access", "vlan", "access-vlan");
    PhrasesAfter(sp, "trunk", "vlans", "trunk-vlans");
    PhrasesAfter(sp, "native", "vlan", "native-vlan");
  }

  // The whole tree.

  lemma AdminAfter(items: seq<Item>)
    requires AdminState(items).Ok?
    ensures AdminState(InterfaceChildren(items)).Err? <==> AdminClash(items)
  {
    SwitchportBlocksKeepLeaves(MapItems(AdminLeaf, items));
    AdminQueries(items);
    AdminStateLeaves(items);
  }

  lemma KeptIff(kind: Kind, after: Kind, ifname: string, sp: Option<seq<Item>>)
    requires kind == after || kind == Port || kind == Management
    ensures var migrated := match sp case None => None case Some(items) => Some(MapItems(SwitchportLeaf, items));
      ReadSwitchport(after, ifname, migrated) == ReadSwitchport(kind, ifname, sp) <==>
        SwitchportKept(kind, after, ifname, sp)
  {
    if sp.Some? { SwitchportIff(sp.value); }
  }

  lemma RenamedIs(item: Item)
    requires item.Block?
    ensures var after := InterfaceBlock(item); Classify(after.name, after.keys) == Renamed(item)
    ensures var before := Classify(item.name, item.keys);
      before.Known? && Renamed(item).Known? ==>
        before.ifname == Renamed(item).ifname &&
        (before.kind == Renamed(item).kind || before.kind == Port || before.kind == Management)
    ensures !Classify(item.name, item.keys).Known? ==> Renamed(item) == Classify(item.name, item.keys)
  {
    if item.name in {"ethernet", "management"} && |item.keys| == 1 {
      var key := item.keys[0];
      assert key in {"ethernet", "management"} ==> !Classify(key, []).Known?;
    }
  }

  lemma InterfaceIff(item: Item)
    requires item.Block?
    ensures Read(InterfaceBlock(item)) == Read(item) <==> Stable(item)
  {
    RenamedIs(item);
    KeyIff(item);
    AdminIff(item.children);
    BlocksKept(item.children);
    var before, after := Classify(item.name, item.keys), Renamed(item);
    if before.Known? && after.Known? {
      KeptIff(before.kind, after.kind, before.ifname, FirstBlock(item.children, "switchport"));
      if AdminState(item.children).Ok? { AdminAfter(item.children); }
    }
  }

  lemma {:induction false} ReadAllIff(items: seq<Item>, seen: set<Key>)
    ensures ReadAll(MapItems(InterfaceBlock, items), seen) == ReadAll(items, seen) <==> AllStable(items, seen)
    decreases items
  {
    if items != [] {
      var after := MapItems(InterfaceBlock, items);
      assert after[0] == InterfaceBlock(items[0]) && after[1..] == MapItems(InterfaceBlock, items[1..]);
      if items[0].Leaf? {
        ReadAllIff(items[1..], seen);
      } else {
        InterfaceIff(items[0]);
        Agreeing(after, items, seen);
        if Read(items[0]).Ok? { ReadAllIff(items[1..], seen + {KeyOf(Read(items[0]).value)}); }
      }
    }
  }

  lemma PushInjective(r: Reading, p: Progress, s: Reading, q: Progress)
    ensures Push(r, p) == Push(s, q) <==> r == s && p == q
  {
    assert Push(r, p).readings[0] == r && Push(r, p).readings[1..] == p.readings;
    assert Push(s, q).readings[0] == s && Push(s, q).readings[1..] == q.readings;
  }

  /** Two extractions agree exactly when they agree on the first block and, unless it ends them, on the rest. */
  lemma Agreeing(a: seq<Item>, b: seq<Item>, seen: set<Key>)
    requires a != [] && b != [] && a[0].Block? && b[0].Block?
    ensures ReadAll(a, seen) == ReadAll(b, seen) <==>
      Read(a[0]) == Read(b[0]) &&
      (Read(a[0]).Err? || KeyOf(Read(a[0]).value) in seen ||
       ReadAll(a[1..], seen + {KeyOf(Read(a[0]).value)}) == ReadAll(b[1..], seen + {KeyOf(Read(a[0]).value)}))
  {
    if Read(a[0]).Ok? && Read(b[0]).Ok? {
      var r, q := Read(a[0]).value, Read(b[0]).value;
      PushInjective(r, ReadAll(a[1..], seen + {KeyOf(r)}), q, ReadAll(b[1..], seen + {KeyOf(q)}));
      assert ReadAll(a, seen).readings[0] == r && ReadAll(b, seen).readings[0] == q;
    }
  }

  lemma {:induction false} FirstInterfaces(tree: seq<Item>)
    ensures FirstBlock(Normalized(tree), "interfaces") ==
      match FirstBlock(tree, "interfaces") case None => None case Some(items) => Some(MapItems(InterfaceBlock, items))
  {
    if tree != [] {
      FirstInterfaces(tree[1..]);
      var after := Normalized(tree);
      assert after[0] == TopBlock(tree[0]) && after[1..] == Normalized(tree[1..]);
    }
  }

  ghost predicate TreeStable(tree: seq<Item>) {
    match FirstBlock(tree, "interfaces") case None => true case Some(items) => AllStable(items, {})
  }

  /** What the extractor reads, interface by interface up to the first refusal, is kept exactly on the stable trees. */
  lemma MigrationIff(tree: seq<Item>)
    ensures Extraction(Normalized(tree)) == Extraction(tree) <==> TreeStable(tree)
  {
    FirstInterfaces(tree);
    match FirstBlock(tree, "interfaces") {
      case None =>
      case Some(items) => ReadAllIff(items, {});
    }
  }

  /**
   * What an accepted interface needs: a key that looks like its name, spellings of its state that
   * do not clash (a VLAN interface only has to stay acceptable), and a stable switchport.
   */
  predicate Preserved(item: Item)
    requires item.Block?
  {
    var id, sp := Classify(item.name, item.keys), FirstBlock(item.children, "switchport");
    KeyStable(item) &&
    (if id.Known? && id.kind == Vlan then !AdminClash(item.children) else AdminStable(item.children)) &&
    (id.Known? && PortLike(id.kind) && sp.Some? ==> SwitchportStable(sp.value))
  }

  lemma AcceptedStable(item: Item)
    requires item.Block? && Read(item).Ok?
    ensures Stable(item) <==> Preserved(item)
  {
    KeyIff(item);
    RenamedIs(item);
  }

  lemma {:induction false} AllAcceptedStable(items: seq<Item>, seen: set<Key>)
    requires ReadAll(items, seen).refusal.None?
    ensures AllStable(items, seen) <==> forall item <- items :: item.Block? ==> Preserved(item)
    decreases items
  {
    if items != [] {
      assert items == [items[0]] + items[1..];
      if items[0].Leaf? {
        AllAcceptedStable(items[1..], seen);
      } else {
        AcceptedStable(items[0]);
        AllAcceptedStable(items[1..], seen + {KeyOf(Read(items[0]).value)});
      }
    }
  }

  ghost predicate TreePreserved(tree: seq<Item>) {
    match FirstBlock(tree, "interfaces")
    case None => true
    case Some(items) => forall item <- items :: item.Block? ==> Preserved(item)
  }

  /** An accepted configuration keeps its meaning exactly when each of its interfaces is preserved. */
  lemma AcceptedIff(tree: seq<Item>)
    ensures Extracted(tree).Ok? ==> (Extracted(Normalized(tree)) == Extracted(tree) <==> TreePreserved(tree))
    ensures TreeStable(tree) ==> Extracted(Normalized(tree)) == Extracted(tree)
  {
    MigrationIff(tree);
    match FirstBlock(tree, "interfaces") {
      case None =>
      case Some(items) =>
        if Extracted(tree).Ok? { AllAcceptedStable(items, {}); }
    }
  }

  /** A marker against `admin-state`: the shut interface becomes one with both markers. */
  lemma AdminCanChange()
    ensures var before := [Leaf("shutdown", []), Leaf("admin-state", ["enabled"])];
      AdminState(before) == Ok(Some(false)) && AdminState(InterfaceChildren(before)) == Err(BothMarkers)
  {
    var before := [Leaf("shutdown", []), Leaf("admin-state", ["enabled"])];
    assert before[1..] == [Leaf("admin-state", ["enabled"])] && before[1..][1..] == [];
    AdminAfter(before);
    AdminQueries(before);
    SwitchportBlocksKeepLeaves(MapItems(AdminLeaf, before));
  }

  lemma VlanIdPrint(n: nat)
    requires 1 <= n <= 4094
    ensures ReadVlan(Some(Decimal.Print(n))) == Ok(Some(n))
  {
    Decimal.ReadPrintIff(n, 65535);
  }

  lemma TrunkPrint(n: nat)
    requires 1 <= n <= 4094
    ensures ReadTrunk(Some([Decimal.Print(n)])) == Ok({n})
  {
    VlanIdPrint(n);
    var text := Decimal.Print(n);
    ValueList.PrintPlain(n);
    ValueList.SplitFirst(text, "");
    assert ValueList.Split([text][0]) == [text] && [text][1..] == [];
    assert NonEmpty([text]) == [text];
    assert Parts([text]) == [text];
    var none: set<nat> := {};
    assert {n} + none == {n};
    assert VlanSet([text][1..]) == Ok(none) && VlanSet([text]) == Ok({n} + none);
  }

  /** Both spellings of one setting, the legacy one first. */
  function BothSpellings(first: string, second: string, legacy: string, a: nat, b: nat): seq<Item> {
    [Leaf(legacy, [Decimal.Print(a)]), Leaf(first, [second, Decimal.Print(b)])]
  }

  lemma BothRead(first: string, second: string, legacy: string, a: nat, b: nat)
    requires Setting(first, second, legacy)
    ensures var sp := BothSpellings(first, second, legacy, a, b);
      FirstWritten(sp, first, second, legacy) == Some([Decimal.Print(a)]) &&
      PhraseValues(sp, first, second) == Some([Decimal.Print(b)])
  {
    var sp := BothSpellings(first, second, legacy, a, b);
    assert sp[1..] == [Leaf(first, [second, Decimal.Print(b)])];
    assert [second, Decimal.Print(b)][1..] == [Decimal.Print(b)];
  }

  lemma {:induction false} Unset(sp: seq<Item>, f: string, s: string, l: string)
    requires forall item <- sp :: item.name !in {f, l, "mode"}
    ensures FirstWritten(sp, f, s, l) == None && PhraseValues(sp, f, s) == None
    ensures LeafValue(sp, l) == None && LeafValues(sp, l) == None && LeafValue(sp, "mode") == None
  {
    if sp != [] { Unset(sp[1..], f, s, l); }
  }

  /** Two spellings of the access VLAN in the wrong order: the migration switches from the second to the first. */
  lemma AccessCanChange(a: nat, b: nat)
    requires 1 <= a <= 4094 && 1 <= b <= 4094 && a != b
    ensures var before := BothSpellings("access", "vlan", "access-vlan", a, b);
      SwitchportOf(MapItems(SwitchportLeaf, before)) != SwitchportOf(before)
  {
    BothRead("access", "vlan", "access-vlan", a, b);
    Unset(BothSpellings("access", "vlan", "access-vlan", a, b), "trunk", "vlans", "trunk-vlans");
    Unset(BothSpellings("access", "vlan", "access-vlan", a, b), "native", "vlan", "native-vlan");
    VlanIdPrint(a);
    VlanIdPrint(b);
    SwitchportIff(BothSpellings("access", "vlan", "access-vlan", a, b));
  }

  /** The same for the trunk list. */
  lemma TrunkCanChange(a: nat, b: nat)
    requires 1 <= a <= 4094 && 1 <= b <= 4094 && a != b
    ensures var before := BothSpellings("trunk", "vlans", "trunk-vlans", a, b);
      SwitchportOf(MapItems(SwitchportLeaf, before)) != SwitchportOf(before)
  {
    BothRead("trunk", "vlans", "trunk-vlans", a, b);
    Unset(BothSpellings("trunk", "vlans", "trunk-vlans", a, b), "access", "vlan", "access-vlan");
    Unset(BothSpellings("trunk", "vlans", "trunk-vlans", a, b), "native", "vlan", "native-vlan");
    TrunkPrint(a);
    TrunkPrint(b);
    SwitchportIff(BothSpellings("trunk", "vlans", "trunk-vlans", a, b));
  }

  // ---------------------------------------------------------------- everything else is left alone

  predicate Touchable(item: Item) {
    IsLeaf(item, "shutdown") || IsLeaf(item, "no-shutdown") || IsLeaf(item, "admin-state") ||
    IsPhrase(item, "no", "shutdown") || (item.Block? && item.name == "switchport")
  }

  /** The statements the migration has nothing to do with, in order. */
  function Others(items: seq<Item>): seq<Item> {
    if items == [] then [] else (if Touchable(items[0]) then [] else [items[0]]) + Others(items[1..])
  }

  lemma {:induction false} OthersKept(children: seq<Item>)
    ensures Others(InterfaceChildren(children)) == Others(children)
  {
    if children != [] {
      OthersKept(children[1..]);
      var admin := MapItems(AdminLeaf, children);
      assert admin[0] == AdminLeaf(children[0]) && admin[1..] == MapItems(AdminLeaf, children[1..]);
      var after := MapItems(SwitchportBlock, admin);
      assert after[0] == SwitchportBlock(admin[0]) && after[1..] == MapItems(SwitchportBlock, admin[1..]);
    }
  }

  // ---------------------------------------------------------------- settings written once

  function Count(p: Item -> bool, items: seq<Item>): nat {
    if items == [] then 0 else (if p(items[0]) then 1 else 0) + Count(p, items[1..])
  }

  predicate SpellsAdmin(item: Item) {
    IsLeaf(item, "shutdown") || IsLeaf(item, "no-shutdown") || IsLeaf(item, "admin-state") ||
    IsPhrase(item, "no", "shutdown")
  }

  predicate SpellsAccess(item: Item) { IsPhrase(item, "access", "vlan") || IsLeaf(item, "access-vlan") }

  predicate SpellsTrunk(item: Item) { IsPhrase(item, "trunk", "vlans") || IsLeaf(item, "trunk-vlans") }

  predicate SpellsNative(item: Item) { IsPhrase(item, "native", "vlan") || IsLeaf(item, "native-vlan") }

  lemma {:induction false} AdminOnce(items: seq<Item>)
    ensures Count(SpellsAdmin, items) == 0 ==>
      !HasLeaf(items, "shutdown") && !NoShutdown(items) && LeafValue(items, "admin-state").None? &&
      !HasPhrase(items, "admin-state", "enabled") && !HasPhrase(items, "admin-state", "disabled")
    ensures Count(SpellsAdmin, items) <= 1 ==> AdminStable(items)
  {
    if items != [] { AdminOnce(items[1..]); }
  }

  lemma {:induction false} SettingOnce(sp: seq<Item>, p: Item -> bool, first: string, second: string, legacy: string)
    requires forall item :: p(item) == (IsPhrase(item, first, second) || IsLeaf(item, legacy))
    ensures Count(p, sp) == 0 ==>
      PhraseValues(sp, first, second).None? && LeafValue(sp, legacy).None? &&
      FirstWritten(sp, first, second, legacy).None?
    ensures Count(p, sp) <= 1 && first != legacy ==>
      Head(FirstWritten(sp, first, second, legacy)) == VlanText(sp, first, second, legacy) &&
      (PhraseValues(sp, first, second).Some? ==>
        FirstWritten(sp, first, second, legacy) == PhraseValues(sp, first, second))
  {
    if sp != [] {
      SettingOnce(sp[1..], p, first, second, legacy);
      assert p(sp[0]) == (IsPhrase(sp[0], first, second) || IsLeaf(sp[0], legacy));
    }
  }

  lemma SwitchportOnce(sp: seq<Item>)
    requires Count(SpellsAccess, sp) <= 1 && Count(SpellsTrunk, sp) <= 1 && Count(SpellsNative, sp) <= 1
    requires LeafValues(sp, "native-vlan") != Some([])
    ensures SwitchportStable(sp)
  {
    SettingOnce(sp, SpellsAccess, "access", "vlan", "access-vlan");
    SettingOnce(sp, SpellsTrunk, "trunk", "vlans", "trunk-vlans");
    SettingOnce(sp, SpellsNative, "native", "vlan", "native-vlan");
    WrittenSomewhere(sp, "trunk", "vlans", "trunk-vlans");
    WrittenSomewhere(sp, "native", "vlan", "native-vlan");
    ValuedLeaf(sp, "native-vlan");
  }

  /** Each setting written at most once, and no valueless `native-vlan`, is enough. */
  lemma WrittenOnce(item: Item)
    requires item.Block? && KeyStable(item)
    requires Count(SpellsAdmin, item.children) <= 1
    requires match FirstBlock(item.children, "switchport")
      case None => true
      case Some(sp) =>
        Count(SpellsAccess, sp) <= 1 && Count(SpellsTrunk, sp) <= 1 && Count(SpellsNative, sp) <= 1 &&
        LeafValues(sp, "native-vlan") != Some([])
    ensures Read(InterfaceBlock(item)) == Read(item)
  {
    RenamedIs(item);
    KeyIff(item);
    AdminOnce(item.children);
    match FirstBlock(item.children, "switchport") {
      case None =>
      case Some(sp) => SwitchportOnce(sp);
    }
    InterfaceIff(item);
  }

  lemma {:induction false} ValuedLeaf(items: seq<Item>, name: string)
    ensures LeafValues(items, name).Some? && LeafValues(items, name).value != [] ==> LeafValue(items, name).Some?
  {
    if items != [] { ValuedLeaf(items[1..], name); }
  }

  // ---------------------------------------------------------------- migrating twice

  /** Both passes over an interface's statements, one statement at a time. */
  function Child(item: Item): Item {
    SwitchportBlock(AdminLeaf(item))
  }

  lemma {:induction false} Fused(items: seq<Item>)
    ensures InterfaceChildren(items) == MapItems(Child, items)
  {
    if items != [] {
      Fused(items[1..]);
      var admin := MapItems(AdminLeaf, items);
      assert admin[0] == AdminLeaf(items[0]) && admin[1..] == MapItems(AdminLeaf, items[1..]);
    }
  }

  lemma {:induction false} MapTwice(f: Item -> Item, items: seq<Item>)
    requires forall i :: 0 <= i < |items| ==> f(f(items[i])) == f(items[i])
    ensures MapItems(f, MapItems(f, items)) == MapItems(f, items)
  {
    if items != [] {
      MapTwice(f, items[1..]);
      var after := MapItems(f, items);
      assert after[0] == f(items[0]) && after[1..] == MapItems(f, items[1..]);
    }
  }

  lemma ChildTwice(item: Item)
    ensures Child(Child(item)) == Child(item)
  {
    if item.Block? && item.name == "switchport" {
      MapTwice(SwitchportLeaf, item.children);
    }
  }

  lemma InterfaceTwice(item: Item)
    ensures InterfaceBlock(InterfaceBlock(item)) == InterfaceBlock(item)
  {
    if item.Block? {
      forall i | 0 <= i < |item.children| ensures Child(Child(item.children[i])) == Child(item.children[i]) {
        ChildTwice(item.children[i]);
      }
      MapTwice(Child, item.children);
      Fused(item.children);
      Fused(MapItems(Child, item.children));
    }
  }

  lemma TopTwice(item: Item)
    ensures TopBlock(TopBlock(item)) == TopBlock(item)
  {
    if item.Block? {
      forall i | 0 <= i < |item.children|
        ensures InterfaceBlock(InterfaceBlock(item.children[i])) == InterfaceBlock(item.children[i])
      {
        InterfaceTwice(item.children[i]);
      }
      MapTwice(InterfaceBlock, item.children);
    }
  }

  /** Migrating a migrated tree changes nothing. */
  lemma Idempotent(tree: seq<Item>)
    ensures Normalized(Normalized(tree)) == Normalized(tree)
  {
    forall i | 0 <= i < |tree| ensures TopBlock(TopBlock(tree[i])) == TopBlock(tree[i]) {
      TopTwice(tree[i]);
    }
    MapTwice(TopBlock, tree);
  }

  // ---------------------------------------------------------------- the passes, in place

  lemma {:induction false} MapItemsSnoc(f: Item -> Item, items: seq<Item>, item: Item)
    ensures MapItems(f, items + [item]) == MapItems(f, items) + [f(item)]
  {
    if items == [] {
      assert items + [item] == [item];
    } else {
      assert (items + [item])[0] == items[0] && (items + [item])[1..] == items[1..] + [item];
      MapItemsSnoc(f, items[1..], item);
      Assoc([f(items[0])], MapItems(f, items[1..]), [f(item)]);
    }
  }

  /** Rewriting entry `i` moves the boundary between new and old by one. */
  lemma Rewritten(f: Item -> Item, was: seq<Item>, items: seq<Item>, i: nat)
    requires i < |was| && items == MapItems(f, was[..i]) + was[i..]
    ensures items[i] == was[i] && items[i := f(was[i])] == MapItems(f, was[..i + 1]) + was[i + 1..]
  {
    assert was[..i + 1] == was[..i] + [was[i]];
    MapItemsSnoc(f, was[..i], was[i]);
  }

  method RewriteAdminLeaf(item: Item) returns (r: Item)
    ensures r == AdminLeaf(item)
  {
    r := item;
    if item.Leaf? {
      var enabled := item.values != [] && item.values[0] == "enabled";
      var disabled := item.values != [] && item.values[0] == "disabled";
      if item.name == "no-shutdown" || (item.name == "admin-state" && enabled) {
        r := NO_SHUTDOWN;
      } else if item.name == "admin-state" && disabled {
        r := Leaf("shutdown", []);
      }
    }
  }

  method NormalizeAdminLeaves(children: seq<Item>) returns (items: seq<Item>)
    ensures items == MapItems(AdminLeaf, children)
  {
    items := children;
    for i := 0 to |children|
      invariant items == MapItems(AdminLeaf, children[..i]) + children[i..]
    {
      Rewritten(AdminLeaf, children, items, i);
      var item := RewriteAdminLeaf(items[i]);
      items := items[i := item];
    }
    assert children[..|children|] == children;
  }

  method RewriteSwitchportLeaf(item: Item) returns (r: Item)
    ensures r == SwitchportLeaf(item)
  {
    r := item;
    if item.Leaf? {
      if item.name == "access-vlan" {
        r := Leaf("access", ["vlan"] + item.values);
      } else if item.name == "trunk-vlans" {
        r := Leaf("trunk", ["vlans"] + item.values);
      } else if item.name == "native-vlan" {
        r := Leaf("native", ["vlan"] + item.values);
      }
    }
  }

  method NormalizeSwitchportLeaves(children: seq<Item>) returns (items: seq<Item>)
    ensures items == MapItems(SwitchportLeaf, children)
  {
    items := children;
    for i := 0 to |children|
      invariant items == MapItems(SwitchportLeaf, children[..i]) + children[i..]
    {
      Rewritten(SwitchportLeaf, children, items, i);
      var item := RewriteSwitchportLeaf(items[i]);
      items := items[i := item];
    }
    assert children[..|children|] == children;
  }

  method NormalizeSwitchports(children: seq<Item>) returns (items: seq<Item>)
    ensures items == MapItems(SwitchportBlock, children)
  {
    items := children;
    for i := 0 to |children|
      invariant items == MapItems(SwitchportBlock, children[..i]) + children[i..]
    {
      Rewritten(SwitchportBlock, children, items, i);
      if items[i].Block? && items[i].name == "switchport" {
        var leaves := NormalizeSwitchportLeaves(items[i].children);
        items := items[i := items[i].(children := leaves)];
      }
    }
    assert children[..|children|] == children;
  }

  method NormalizeInterfaceBlocks(children: seq<Item>) returns (items: seq<Item>)
    ensures items == MapItems(InterfaceBlock, children)
  {
    items := children;
    for i := 0 to |children|
      invariant items == MapItems(InterfaceBlock, children[..i]) + children[i..]
    {
      Rewritten(InterfaceBlock, children, items, i);
      if items[i].Block? {
        var Block(name, keys, statements) := items[i];
        if name in {"ethernet", "management"} && |keys| == 1 {
          name, keys := keys[0], [];
        }
        statements := NormalizeAdminLeaves(statements);
        statements := NormalizeSwitchports(statements);
        items := items[i := Block(name, keys, statements)];
      }
    }
    assert children[..|children|] == children;
  }

  class Tree {
    var items: seq<Item>

    method NormalizeInterfaces()
      modifies this
      ensures items == Normalized(old(items))
    {
      for i := 0 to |items|
        invariant |items| == |old(items)|
        invariant items == MapItems(TopBlock, old(items)[..i]) + old(items)[i..]
      {
        Rewritten(TopBlock, old(items), items, i);
        if items[i].Block? && items[i].name == "interfaces" {
          var blocks := NormalizeInterfaceBlocks(items[i].children);
          items := items[i := items[i].(children := blocks)];
        }
      }
      assert old(items)[..|old(items)|] == old(items);
    }
  }
}
