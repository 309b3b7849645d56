# Hemlock, verified in Dafny

Hemlock is the management plane of a network switch: a configuration language, a daemon that
turns committed text into intents and diffs, an applier for the operating system, and an
orchestrator for 802.1X, DHCP and SNMP. This project models the parts where its correctness
lives and proves what they promise, for every input, every run and every reachable state.

| Part | Modules |
|---|---|
| Configuration text: printer, tokenizer, parser, comments, the print/parse law | `ConfigTree`, `ConfigLexer`, `ConfigParser`, `RoundTrip`, `Comments` |
| The legacy-form migration and what the extractor reads before and after it | `Migration` |
| Commits to the operating system and their convergence with a boot replay | `KeyedDiff`, `OsApply`, `Netdevs`, `Convergence` |
| The rollback ring, its crash safety, and whose metadata it shows when commits are cut short | `RollbackStore`, `RollbackCrashes`, `RollbackHonesty` |
| The 802.1X engine, its dataplane flips and directives | `Dot1x` |
| DHCP pools and the lease view | `DhcpPools`, `DhcpLeases` |
| AgentX (RFC 2741) and base64 (RFC 4648) | `AgentxWire`, `AgentxPdus`, `Base64` |
| Decimal numbers, value lists, suffixed rates | `Decimal`, `ValueList`, `Rates` |
| Static routes, port, channel-group and storm-control diffs | `StaticRoutes`, `PortDiff`, `LagDiff`, `StormDiff` |
| Slices of the commit validator | `Validators` |

Loops and objects that change are methods and classes, each proved against a specification
function or relation; the laws are lemmas about those specifications. Where the original walks an
ordered map and no result depends on the order, a loop picks its keys freely.

## Where the promises do not hold

Six promises of the code's own comments and documentation hold only under a condition. The model
follows the code, and each condition is proved to be exact.

- `parse(to_text(t)) == t` "for every tree" (src/hemlock-config/src/lib.rs:22-23): true exactly for
  printable trees, whose names are bare words that do not open a comment and whose bare words do not
  open a comment either (`RoundTrip.RoundTripIff`, with `RoundTrip.UnprintableName` and
  `RoundTrip.UnprintableValue`; concrete trees in `RoundTrip.UnprintableTrees`).
- "boot-time replay and commit-time diffs converge to the same state"
  (src/hemlock-mgmtd/src/osapply.rs:8-11): true of routes and neighbours on every run, and of the
  addresses and the MTU of every device that starts without addresses and with the default MTU. A link
  can end elsewhere: re-addressing a shut port raises it, since an unchanged shutdown is not sent again.
  For any starting device the three conditions are exact (`Convergence.RunsConverge`,
  `Netdevs.NetdevConverges`, `Netdevs.ShutPortRaised`).
- The migration keeps the meaning of an accepted configuration exactly when every interface has a key
  that looks like its name, spellings of its state that do not clash, and, where it has one, a switchport
  whose first spelling says what the preferred one says (`Migration.AcceptedIff`); two spellings of one setting that disagree can change it
  (`Migration.AdminCanChange`, `Migration.AccessCanChange`, `Migration.TrunkCanChange`). On a refused
  configuration the exact statement compares all that was read before the refusal as well
  (`Migration.MigrationIff`).
- "every ring entry describes its own commit" (src/hemlock-mgmtd/src/store.rs:131-133): true while no
  commit is cut short (`RollbackCrashes.UncutHonest`). Two cuts break it. One between the running text and
  its metadata leaves the new text under the old metadata, and later commits carry that pair into every
  slot (`RollbackCrashes.AnySlotCanLie`). One between the renames of an entry, or metadata left in a slot
  whose text is gone, puts a text over metadata that is not its own (`RollbackCrashes.AttributedIff`), for
  good when its own is lost (`RollbackCrashes.CommittedAttributedIff`, reached in
  `RollbackCrashes.LastSlotLieReached`). The conditions that cover both are exact: for the stops of one
  commit on any files (`RollbackHonesty.StopsHonestIff`), and for all logs of given commits, which stay
  honest exactly when the text of each commit over the metadata of any earlier one was itself a commit
  (`RollbackHonesty.RunsHonestIff`).
- `set_config` takes the "full desired state, declaratively" (src/hemlock-orch/src/dot1x.rs:141-143), but
  its directive leaves after the lock is released. hostapd is sure to end with the current configuration
  exactly when no other one is still on its way out and the current one is, or was the last to leave
  (`Dot1x.ToldIff`); two overlapping calls can leave it on the older one (`Dot1x.OverlapMisleads`).
- A lease range covering all of IPv4 has a capacity of zero in a release build, because its size is one
  more than a 32-bit number holds; with overflow checks the addition panics (`DhcpLeases.CapacityIff`,
  `DhcpLeases.UseFitsIff`).

## Model

| member | source | states |
|---|---|---|
| `ConfigTree.Render` | src/hemlock-config/src/tree.rs:419-445 | the recursive writer appends to its buffer exactly the canonical text of the item at that depth, and nothing else |
| `ConfigTree.RenderAll` | src/hemlock-config/src/tree.rs:82-88 | the whole tree is the concatenation of its items' texts at depth zero |
| `ConfigTree.PushAtoms` | src/hemlock-config/src/tree.rs:409-445 | words follow one another, each after one blank, quoted and escaped when they are not bare |
| `ConfigLexer.LexText` | src/hemlock-config/src/lexer.rs:56-229 | the tokenizer loop yields the tokens, positions and errors of the cursor specification on every text |
| `ConfigLexer.TakeTurn` | src/hemlock-config/src/lexer.rs:74-227 | one turn of the loop: blank, punctuation, any of three comments, quoted string, word or error, with the position it happened at |
| `ConfigLexer.ScanString` | src/hemlock-config/src/lexer.rs:167-202 | a quoted string ends at its first unescaped quote, known escapes are decoded, unknown ones kept with their backslash, and it fails exactly when it never closes |
| `ConfigLexer.ScanBlock` | src/hemlock-config/src/lexer.rs:131-147 | a block comment runs through the first star-slash and fails exactly when there is none |
| `ConfigParser.Parser.ParseStatement` | src/hemlock-config/src/parser.rs:91-154 | the recursive descent over a shared position reads one statement exactly as the grammar functions do, error positions included |
| `ConfigParser.Parser.ParseStatements` | src/hemlock-config/src/parser.rs:70-89 | statements up to a closing brace or the end, with a stray brace at top level and a missing one inside a block refused |
| `ConfigParser.ParseText` | src/hemlock-config/src/parser.rs:34-39 | parsing a text is tokenizing it and reading all its statements, first error first |
| `RoundTrip.EscapeIsOnePass` | src/hemlock-config/src/tree.rs:409-417 | the two chained replacements of the printer escape every character once and never an escape of their own |
| `RoundTrip.ItemLexes` | src/hemlock-config/src/tree.rs:419-445 | the text of any printable item, at any depth and before any rest, tokenizes to that item's tokens |
| `RoundTrip.ItemParses` | src/hemlock-config/src/parser.rs:91-154 | the tokens of any item parse back to that item and leave the rest untouched |
| `RoundTrip.PrintThenParse` | src/hemlock-config/src/lib.rs:22-23 | every printable tree comes back from its own text |
| `RoundTrip.LexCost` | src/hemlock-config/src/lexer.rs:56-229 | no text yields words that need more quote characters than the text contains |
| `RoundTrip.RoundTripIff` | src/hemlock-config/src/lib.rs:22-23 | a tree comes back from its own text if and only if it is printable |
| `RoundTrip.UnprintableName` | src/hemlock-config/src/tree.rs:419-445 | a tree with, at any depth, a name that is not a bare word or opens a comment does not come back, whatever else it holds |
| `RoundTrip.UnprintableValue` | src/hemlock-config/src/tree.rs:409-417 | a tree with, at any depth, a bare value or key that opens a comment does not come back, whatever else it holds |
| `RoundTrip.UnprintableTrees` | src/hemlock-config/src/lib.rs:22-23 | two trees that do not come back: a name of two words, a value that starts like a comment |
| `Comments.TokensAnywhere` | src/hemlock-config/src/lexer.rs:56-229 | the tokens of a text do not depend on the line and column it starts at |
| `Comments.HashCommentVanishes` | src/hemlock-config/src/lexer.rs:112-119 | a `#` comment in front of any rest adds and hides no token, and leaves its newline |
| `Comments.SlashCommentVanishes` | src/hemlock-config/src/lexer.rs:120-130 | the same for a `//` comment |
| `Comments.BlockCommentVanishes` | src/hemlock-config/src/lexer.rs:131-147 | a closed block comment adds and hides no token, newlines inside it included; an unclosed one is an error |
| `Migration.KeyIff` | src/hemlock-mgmtd/src/intents.rs:1531-1550 | kind and name of an interface survive the migration exactly when a legacy key already looks like the interface name it becomes |
| `Migration.AdminIff` | src/hemlock-mgmtd/src/intents.rs:3372-3396 | the administrative state read from an interface survives exactly when its spellings do not disagree and no invalid value hides a valid one |
| `Migration.SwitchportIff` | src/hemlock-mgmtd/src/intents.rs:3407-3467 | the switchport read after the migration, VLAN numbers and trunk sets or the refusal, is the one read before exactly when the spelling written first says what the preferred spelling says, or both fail on the same text |
| `Migration.InterfaceIff` | src/hemlock-mgmtd/src/intents.rs:1531-1815 | an interface is read the same, kind by kind and refusals included, exactly when it is stable: no clash of administrative spellings, a stable switchport where its kind has one, and a key that stays of its kind unless a refusal comes first |
| `Migration.MigrationIff` | src/hemlock-config/src/tree.rs:167-200 | all that the extractor reads from the tree up to its first refusal, that refusal included, is unchanged by the migration if and only if every interface up to there is stable |
| `Migration.AcceptedIff` | src/hemlock-config/src/tree.rs:167-200 | an accepted configuration is extracted the same after the migration if and only if each of its interfaces has a key that looks like its name, no clash of administrative spellings, and a stable switchport where its kind has one; a stable refused one is refused for the same reason |
| `Migration.OthersKept` | src/hemlock-config/src/tree.rs:167-200 | every statement of an interface other than its administrative state and switchport is kept, in order |
| `Migration.AdminCanChange` | src/hemlock-config/src/tree.rs:232-257 | a shut interface that also says `admin-state enabled` is refused after the migration |
| `Migration.AccessCanChange` | src/hemlock-config/src/tree.rs:259-273 | an access VLAN written in both spellings, the legacy one first, changes for any two different numbers |
| `Migration.TrunkCanChange` | src/hemlock-config/src/tree.rs:259-273 | so does a trunk list |
| `Migration.WrittenOnce` | src/hemlock-config/src/tree.rs:157-166 | writing every setting once, `native-vlan` with a value, is enough for an interface to be stable |
| `Migration.Idempotent` | src/hemlock-config/src/tree.rs:167-200 | migrating any tree twice is migrating it once |
| `Migration.NormalizeAdminLeaves` | src/hemlock-config/src/tree.rs:232-257 | the loop rewrites exactly the legacy administrative leaves, in place |
| `Migration.NormalizeSwitchportLeaves` | src/hemlock-config/src/tree.rs:259-273 | the loop rewrites exactly the hyphenated VLAN leaves, in place |
| `Migration.NormalizeInterfaceBlocks` | src/hemlock-config/src/tree.rs:167-200 | every block of `interfaces` is renamed from its legacy form and its children are migrated |
| `Migration.Tree.NormalizeInterfaces` | src/hemlock-config/src/tree.rs:167-200 | the tree is updated in place to the migrated tree |
| `KeyedDiff.Diff` | src/hemlock-mgmtd/src/intents.rs:6047-6085 | the two loops report every key that differs once, with its value on both sides, and no other key |
| `KeyedDiff.DiffReaches` | src/hemlock-mgmtd/src/intents.rs:6047-6085 | applying a diff to the map it was taken from gives the wanted map |
| `KeyedDiff.EmptyIff` | src/hemlock-mgmtd/src/intents.rs:6047-6085 | a diff is empty exactly when nothing differs |
| `OsApply.RouteStep` | src/hemlock-mgmtd/src/osapply.rs:363-410 | the commands for one route change turn the kernel table of a configuration into the table of the configuration with that change, old metric and old kind gone |
| `OsApply.RoutesConverge` | src/hemlock-mgmtd/src/osapply.rs:196-202 | the route changes of a commit turn the table of the running configuration into that of the new one |
| `OsApply.ArpStep` | src/hemlock-mgmtd/src/osapply.rs:281-318 | the commands for one static neighbour, moved to another interface or not, leave exactly the entries of the changed configuration |
| `OsApply.ArpsConverge` | src/hemlock-mgmtd/src/intents.rs:6067-6085 | the neighbour changes of a commit turn one configuration's entries into the next one's |
| `Netdevs.RunState` | src/hemlock-mgmtd/src/osapply.rs:321-358 | after a boot and any commits a device, whatever it was before, has lost every address ever configured but the last, has the last MTU, the default in place of a removed one, or its first, and the link its whole history explains |
| `Netdevs.NetdevConverges` | src/hemlock-mgmtd/src/osapply.rs:8-11 | a device ends as a boot of the last configuration leaves it: in its addresses if and only if it had none that was configured and taken away, in its MTU if and only if one is set, none ever was, or it started at the default, and in its link if and only if no address arrived inside the last shutdown and, where nothing is configured, nothing ever was or the link was up |
| `Netdevs.FreshConverges` | src/hemlock-mgmtd/src/osapply.rs:8-11 | a device that starts without addresses and at its default MTU ends every run with the addresses and the MTU of a boot of the last configuration |
| `Netdevs.ShutPortRaised` | src/hemlock-mgmtd/src/osapply.rs:338-358 | re-addressing a shut management port leaves it up where a boot leaves it down |
| `Netdevs.FamilyAt` | src/hemlock-mgmtd/src/osapply.rs:95-137 | applying a family's changes acts on every device separately, through its own change or not at all |
| `Netdevs.DiffNetdevs` | src/hemlock-mgmtd/src/intents.rs:5924-6045 | one change for every name whose address, MTU or administrative state moved, reset to defaults when it vanished, none for an unchanged name |
| `Netdevs.ReplayNetdevs` | src/hemlock-mgmtd/src/osapply.rs:139-209 | the boot replay asks every configured device for its whole intent |
| `Convergence.TablesRun` | src/hemlock-mgmtd/src/osapply.rs:8-11 | after any run from empty tables, routes and static neighbours are those of the last configuration |
| `Convergence.DeviceRun` | src/hemlock-mgmtd/src/osapply.rs:95-232 | in any run every device sees its own history of intents, whatever the other families do |
| `Convergence.RunsConverge` | src/hemlock-mgmtd/src/osapply.rs:8-11 | one boot and any commits leave the same routes and neighbours as a fresh boot of the last configuration, and the same addresses, MTU and link of every device exactly under the three conditions |
| `Convergence.DiffOs` | src/hemlock-mgmtd/src/intents.rs:5924-6085 | the diff lists the changes of all five families and nothing else |
| `Convergence.ReplayOs` | src/hemlock-mgmtd/src/osapply.rs:139-232 | the replay lists what a boot of the configuration asks for |
| `Convergence.Kernel.RunRoutes` | src/hemlock-mgmtd/src/osapply.rs:363-410 | the command loop leaves the table the specification describes |
| `Convergence.Kernel.RunArp` | src/hemlock-mgmtd/src/osapply.rs:281-318 | the same for neighbours |
| `Convergence.Kernel.RunFamily` | src/hemlock-mgmtd/src/osapply.rs:321-358 | the same for devices |
| `Convergence.Kernel.Commit` | src/hemlock-mgmtd/src/osapply.rs:95-137 | a commit applies the diff of the two configurations to the kernel |
| `Convergence.Kernel.Replay` | src/hemlock-mgmtd/src/osapply.rs:139-232 | a boot applies the replay of its configuration to the kernel |
| `RollbackStore.ShiftReaches` | src/hemlock-mgmtd/src/store.rs:117-130 | the descending renames move every entry up one slot, its metadata with it, overwriting none but the last |
| `RollbackStore.CommitPrepends` | src/hemlock-mgmtd/src/store.rs:117-146 | a commit puts its text and metadata in front of the bounded history the files hold, and makes the text the candidate |
| `RollbackStore.RingIsHistory` | src/hemlock-mgmtd/src/store.rs:117-169 | after any whole commits, drafts and discards, running, its metadata, every ring slot and the candidate are those of the history, slots past it empty |
| `RollbackStore.CrashSafe` | src/hemlock-mgmtd/src/store.rs:117-146 | after any prefix of a commit's steps the running text is the old or the new one, the old one is still there, and every ring text but the oldest is in its slot or the next |
| `RollbackCrashes.CrashStaged` | src/hemlock-mgmtd/src/store.rs:117-146 | wherever a commit stops, each slot is untouched, without its text, or holds the text from below with its metadata or with what nothing carried away |
| `RollbackCrashes.AttributedIff` | src/hemlock-mgmtd/src/store.rs:117-146 | on any files at all, and measured against them, no stop of a commit nor its end puts other metadata on slot k if and only if the slot has none that belongs to no text, or to the one the ring drops, while a text with other metadata moves in |
| `RollbackCrashes.LastSlotIff` | src/hemlock-mgmtd/src/store.rs:119-130 | for the last slot: unless 49 holds a text, 50 holds metadata, and both texts and metadata of the two slots differ |
| `RollbackCrashes.CommittedAttributedIff` | src/hemlock-mgmtd/src/store.rs:117-146 | a whole commit misattributes slot k if and only if, besides, the text moving in has no metadata of its own |
| `RollbackCrashes.LogKeepsTexts` | src/hemlock-mgmtd/src/store.rs:117-146 | after any log of commits, some cut short, the running text is that of the last whole commit or of one tried since, and every ring text was committed or tried |
| `RollbackCrashes.LogHonest` | src/hemlock-mgmtd/src/store.rs:117-146 | after any such log a slot shows its own commit's metadata or none, unless a lie started in it or moved into it: at foreign metadata, or at running files torn between text and metadata |
| `RollbackCrashes.UncutHonest` | src/hemlock-mgmtd/src/store.rs:131-139 | while no commit is cut short no slot is in doubt |
| `RollbackCrashes.AnySlotCanLie` | src/hemlock-mgmtd/src/store.rs:140-144 | a commit torn between the running text and its metadata, then k whole commits: slot k shows an entry nobody committed, for every k of the ring |
| `RollbackCrashes.LastSlotLies` | src/hemlock-mgmtd/src/store.rs:119-130 | in any full ring, a commit cut between the renames of slot 48 and a whole commit after it leave in slot 50, for good, the text of slot 48 under the metadata of slot 49 |
| `RollbackCrashes.LastSlotLieReached` | src/hemlock-mgmtd/src/store.rs:119-130 | such a log exists, and what its slot 50 shows was never committed |
| `RollbackHonesty.SlotHonestIff` | src/hemlock-mgmtd/src/store.rs:117-139 | on any files and for any set of entries: every stop of a commit leaves slot k with an entry of the set, or without metadata, if and only if slots k and k - 1 held one and the text that moves in matches the metadata it finds |
| `RollbackHonesty.RunningHonestIff` | src/hemlock-mgmtd/src/store.rs:140-144 | the same for the running files: exactly when they held one, and the new text is in the set with its own and with the old metadata |
| `RollbackHonesty.StopsHonestIff` | src/hemlock-mgmtd/src/store.rs:117-146 | every stop of a commit leaves the running files and all fifty slots honest if and only if all were, and all these pairs are in the set |
| `RollbackHonesty.LogInOrder` | src/hemlock-mgmtd/src/store.rs:117-146 | after any log, cuts included, no metadata at or above a slot is of a later commit than the slot's text |
| `RollbackHonesty.RunsHonestIff` | src/hemlock-mgmtd/src/store.rs:131-144 | every log of given commits, cut short wherever, shows in the running files and every slot only entries that were tried, if and only if the text of each commit over the metadata of any earlier one was tried too |
| `RollbackHonesty.StampedIff` | src/hemlock-mgmtd/src/store.rs:131-144 | commits that all carry metadata of their own are safe from such entries if and only if all of them commit the empty text |
| `RollbackStore.RollbacksAreHistory` | src/hemlock-mgmtd/src/store.rs:158-169 | the listing has one entry per earlier commit, newest first, with that commit's metadata |
| `RollbackStore.Store.Commit` | src/hemlock-mgmtd/src/store.rs:117-146 | the renaming loop and the writes leave the files of the specification |
| `RollbackStore.Store.SetDraft` | src/hemlock-mgmtd/src/store.rs:106-108 | the draft reads back as the candidate, and ring, running text and metadata are as before |
| `RollbackStore.Store.DiscardDraft` | src/hemlock-mgmtd/src/store.rs:110-114 | the candidate reads as the running text, and ring, running text and metadata are as before |
| `RollbackStore.Store.ListRollbacks` | src/hemlock-mgmtd/src/store.rs:158-169 | the loop over slots lists exactly those that hold a configuration |
| `Dot1x.ConfigureKeeps` | src/hemlock-orch/src/dot1x.rs:144-185 | a reconfiguration keeps the run invariant |
| `Dot1x.HandleKeeps` | src/hemlock-orch/src/dot1x.rs:187-228 | a control event keeps the run invariant |
| `Dot1x.RunInvariant` | src/hemlock-orch/src/dot1x.rs:144-242 | after any interleaving of configurations, events, reauthentications and sends: tracked ports are the configured ones, each port is what its events since enabling make it, and the flips sent give every enabled port its engine flag and every other port `true` |
| `Dot1x.RunConserves` | src/hemlock-orch/src/dot1x.rs:144-242 | in every interleaving each directive asked for is sent once or still pending, and the newest configuration asked for is the current one |
| `Dot1x.FirstOutSends` | src/hemlock-orch/src/dot1x.rs:182-184 | when calls send in the order in which they held the lock, what was sent and what is pending are the requests in order |
| `Dot1x.FirstOutTells` | src/hemlock-orch/src/dot1x.rs:182-184 | then, once all is sent, hostapd was told the current configuration last |
| `Dot1x.ToldIff` | src/hemlock-orch/src/dot1x.rs:182-184 | in any state, hostapd ends with the current configuration in every order of the pending sends if and only if no other configuration is pending and the current one is pending or was sent last |
| `Dot1x.OverlapMisleads` | src/hemlock-orch/src/dot1x.rs:182-184 | after any run, two overlapping calls can end with the newer configuration in the engine and the older one in hostapd |
| `Dot1x.EventFlipsMatter` | src/hemlock-orch/src/dot1x.rs:187-228 | an event sends at most one flip, and never one the dataplane already has |
| `Dot1x.ConfigFlips` | src/hemlock-orch/src/dot1x.rs:144-185 | enabling a port always closes an open one; disabling finds exactly the port's flag in the dataplane |
| `Dot1x.PortsAreConfigured` | src/hemlock-orch/src/dot1x.rs:144-185 | the engine never tracks another set of ports than the configured one |
| `Dot1x.Engine.ApplyConfig` | src/hemlock-orch/src/dot1x.rs:144-181 | under the lock, the loops over vanished and new ports are one configuration step of the log, an equal configuration included, and a directive is due exactly for a new one |
| `Dot1x.Engine.Deliver` | src/hemlock-orch/src/dot1x.rs:182-184 | sending one pending directive is one send step of the log |
| `Dot1x.Engine.SetConfig` | src/hemlock-orch/src/dot1x.rs:144-185 | a call that is not overtaken is its configuration step and then the send of its own directive |
| `Dot1x.Engine.HandleEvent` | src/hemlock-orch/src/dot1x.rs:187-228 | the method is one event step of the log |
| `Dot1x.Engine.RequestReauth` | src/hemlock-orch/src/dot1x.rs:232-242 | a request is forwarded exactly for an enabled port, after the lock |
| `DhcpPools.MaskClears` | src/hemlock-mgmtd/src/intents.rs:632-638 | the conjunction of an address with the maximal word shifted left in 32 bits clears exactly the host bits |
| `DhcpPools.SameNetwork` | src/hemlock-mgmtd/src/intents.rs:632-638 | two addresses agree under that mask exactly when they agree above the host bits |
| `DhcpPools.OverlapIff` | src/hemlock-mgmtd/src/intents.rs:641-643 | the overlap test is true exactly when some address lies in both networks |
| `DhcpPools.RangeInNetwork` | src/hemlock-mgmtd/src/intents.rs:3675-3737 | in an accepted pool every address between the range ends lies in its network |
| `DhcpPools.PoolsAreDisjoint` | src/hemlock-mgmtd/src/intents.rs:3675-3737 | in an accepted configuration no address is in two networks, in two ranges, reserved in two pools, or in one range and reserved in another pool |
| `DhcpPools.CheckPool` | src/hemlock-mgmtd/src/intents.rs:3684-3717 | accepts exactly pools with network, range and gateway whose every address is in the network |
| `DhcpPools.ClaimMacs` | src/hemlock-mgmtd/src/intents.rs:3711-3725 | refuses exactly a MAC another pool has reserved |
| `DhcpPools.FindOverlap` | src/hemlock-mgmtd/src/intents.rs:3726-3736 | refuses exactly a network that overlaps an earlier one |
| `DhcpPools.FindServedRelay` | src/hemlock-mgmtd/src/intents.rs:3739-3769 | refuses exactly a relay address inside some pool's network |
| `DhcpPools.ValidatePools` | src/hemlock-mgmtd/src/intents.rs:3675-3771 | the validator accepts a configuration if and only if all these conditions hold of it |
| `DhcpLeases.CapacityIff` | src/hemlock-orch/src/dhcpserver.rs:58-63 | the capacity is the number of addresses in the range, except for all of IPv4 |
| `DhcpLeases.MergeConserves` | src/hemlock-orch/src/dhcpserver.rs:259-279 | merging keeps every lease's address, MAC, hostname and expiry in place and appends exactly the reservations that match no row |
| `DhcpLeases.MergeStamps` | src/hemlock-orch/src/dhcpserver.rs:259-279 | a row is marked as reserved exactly when it is the first match of some reservation in the final list, and shows the pool of the last such one |
| `DhcpLeases.MergeReserves` | src/hemlock-orch/src/dhcpserver.rs:256-279 | the first row a reservation matches is always marked |
| `DhcpLeases.StampedBy` | src/hemlock-orch/src/dhcpserver.rs:259-279 | only reservations mark rows, each in the pool the row names |
| `DhcpLeases.UsageTotal` | src/hemlock-orch/src/dhcpserver.rs:281-299 | the counters of all pools sum to the non-reserved leases inside some range |
| `DhcpLeases.UseFitsIff` | src/hemlock-orch/src/dhcpserver.rs:56-70 | with every dynamic address leased once, a pool's counter is within its capacity unless the range is all of IPv4 and in use |
| `DhcpLeases.SortOrders` | src/hemlock-orch/src/dhcpserver.rs:301 | the rows come out ordered by address, then MAC |
| `DhcpLeases.SortStable` | src/hemlock-orch/src/dhcpserver.rs:301 | rows of one address and MAC keep their order |
| `DhcpLeases.SortCounts` | src/hemlock-orch/src/dhcpserver.rs:301 | sorting changes no counter |
| `DhcpLeases.ViewConserves` | src/hemlock-orch/src/dhcpserver.rs:235-307 | the view holds, as a multiset, the parsed leases and the unmatched reservations |
| `DhcpLeases.ViewReserves` | src/hemlock-orch/src/dhcpserver.rs:256-279 | every reservation of every pool is in the view, on a row marked as reserved with its address or its MAC |
| `DhcpLeases.MergeReservations` | src/hemlock-orch/src/dhcpserver.rs:259-279 | the nested marking loops compute the merge |
| `DhcpLeases.CountUse` | src/hemlock-orch/src/dhcpserver.rs:281-299 | the counting loop gives every pool name its number of dynamic leases |
| `DhcpLeases.Snapshot` | src/hemlock-orch/src/dhcpserver.rs:235-307 | the whole view: ordered rows of the merge, and counters that agree with the rows shown |
| `AgentxWire.WordsIff` | src/hemlock-orch/src/agentx.rs:202-204 | reading n words succeeds with a value and a rest exactly when the bytes are that value's words followed by that rest |
| `AgentxWire.WireIff` | src/hemlock-orch/src/agentx.rs:339-353 | the same for a whole object identifier with its prefix, include and reserved bytes |
| `AgentxWire.SpelledMeans` | src/hemlock-orch/src/agentx.rs:211-220 | the encoder sends an identifier that means the given one exactly when it has at most 255 sub-identifiers |
| `AgentxWire.PairsIff` | src/hemlock-orch/src/agentx.rs:361-384 | the range decoder accepts exactly serializations of pairs of identifiers, gives those pairs, and leaves nothing over |
| `AgentxWire.RequestIff` | src/hemlock-orch/src/agentx.rs:361-384 | a payload parses as a request if and only if it is a serialization of that request, repetition counts included for bulk ones |
| `AgentxWire.RangesRoundTripIff` | src/hemlock-orch/src/agentx.rs:211-220 | encoded search ranges decode to themselves if and only if no identifier has more than 255 sub-identifiers |
| `AgentxWire.PushOid` | src/hemlock-orch/src/agentx.rs:211-220 | the writer appends exactly the identifier's bytes |
| `AgentxWire.Reader.Take16` | src/hemlock-orch/src/agentx.rs:326-330 | takes two bytes big-endian or fails exactly when they are not there, never moving past the end |
| `AgentxWire.Reader.Take32` | src/hemlock-orch/src/agentx.rs:332-336 | the same for four bytes |
| `AgentxWire.Reader.TakeOid` | src/hemlock-orch/src/agentx.rs:339-353 | takes one identifier, a prefix expanded to 1.3.6.1 and itself, never moving past the end |
| `AgentxWire.TakeRanges` | src/hemlock-orch/src/agentx.rs:368-377 | the loop terminates on all bytes with the ranges of the whole payload or nothing |
| `AgentxWire.DecodeRequest` | src/hemlock-orch/src/agentx.rs:361-384 | the decoder computes the request specification on every payload |
| `AgentxPdus.CodesInvert` | src/hemlock-orch/src/agentx.rs:51-91 | every code survives a trip through its type, and every type through its code unless it hides a named code |
| `AgentxPdus.FrameHeader` | src/hemlock-orch/src/agentx.rs:112-131 | the header read from a framed PDU has its identifiers; it states the payload's length exactly for payloads below 2^32 bytes and its type exactly for canonical types |
| `AgentxPdus.BindRoundTripIff` | src/hemlock-orch/src/agentx.rs:230-244 | a reference decoder reads a written binding back if and only if its name and its octets fit their length fields |
| `AgentxPdus.BindsRoundTripIff` | src/hemlock-orch/src/agentx.rs:296-298 | a list of bindings reads back, before any rest, if and only if all of them fit |
| `AgentxPdus.OpenInStep` | src/hemlock-orch/src/agentx.rs:269-277 | an open PDU is whole words, of its type, as long as its header says |
| `AgentxPdus.RegisterInStep` | src/hemlock-orch/src/agentx.rs:282-287 | the same for a register PDU |
| `AgentxPdus.ResponseInStep` | src/hemlock-orch/src/agentx.rs:290-305 | the same for a response PDU |
| `AgentxPdus.ResponseReads` | src/hemlock-orch/src/agentx.rs:290-305 | a response carries the identifiers of the request it answers and bindings that read back |
| `AgentxPdus.PushVarbind` | src/hemlock-orch/src/agentx.rs:230-244 | the writer appends exactly the binding's bytes |
| `AgentxPdus.BuildResponse` | src/hemlock-orch/src/agentx.rs:290-305 | the loop over bindings builds the response PDU |
| `Base64.RunPacks` | src/hemlock-common/src/cert.rs:113-126 | between characters the pending bits are 0, 2, 4 or 6, the unmasked accumulator is the number read so far modulo 2^32, and the bytes out are exactly its complete bytes |
| `Base64.DecodeText` | src/hemlock-common/src/cert.rs:110-128 | decoding succeeds exactly when every character before the first `=` is in the alphabet, and then gives the one byte string that packs those digits |
| `Base64.EncodingPacks` | src/hemlock-common/src/cert.rs:110-128 | the encoding of section 4 of RFC 4648 packs its bytes |
| `Base64.RoundTrip` | src/hemlock-common/src/cert.rs:110-128 | decoding the standard encoding of any bytes can only give those bytes |
| `Base64.DecodeEncoded` | src/hemlock-common/src/cert.rs:110-128 | the decoder run on the standard encoding of any bytes returns them |
| `Decimal.PrintShortest` | src/hemlock-common/src/net.rs:289-297 | no digits spell a number in fewer characters than its printed form |
| `Decimal.ReadPrintIff` | src/hemlock-common/src/net.rs:289-297 | a printed number reads back exactly when it fits the type |
| `ValueList.PartReadsIff` | src/hemlock-common/src/net.rs:288-305 | one printed run reads back exactly when it is within the bound, and is refused otherwise |
| `ValueList.TextReads` | src/hemlock-common/src/net.rs:282-309 | a printed list of runs reads back run by run, refused exactly when it is empty or out of bounds |
| `ValueList.RoundTripIff` | src/hemlock-common/src/net.rs:311-334 | parsing the printed form of values gives their sorted, deduplicated list if and only if there are values and all are within the bound |
| `ValueList.PrintsUnique` | src/hemlock-common/src/net.rs:311-334 | the printed form is canonical: equal sets of values have one text |
| `ValueList.PrintsShortest` | src/hemlock-common/src/net.rs:311-312 | the printed form is the most compact: no text the parser reads as the same values is shorter |
| `ValueList.SortDedupIs` | src/hemlock-common/src/net.rs:314-316 | sorting and deduplicating gives the ascending list of the same values |
| `ValueList.ParseValueList` | src/hemlock-common/src/net.rs:282-309 | the loop over parts gives the covered values in ascending order, or refuses what the part reader refuses |
| `ValueList.TakeRun` | src/hemlock-common/src/net.rs:320-325 | the inner loop takes the longest run, and its `end + 1` never leaves eight bits |
| `ValueList.FormatValueList` | src/hemlock-common/src/net.rs:313-334 | the printed runs are in order, cover exactly the values, and none can be longer |
| `ValueList.ParseFormatted` | src/hemlock-common/src/net.rs:282-334 | the two loops composed: the sorted, deduplicated list exactly for non-empty values within the bound |
| `Rates.WrittenScaled` | src/hemlock-common/src/net.rs:167-174 | the multiplication a printed suffix asks for never overflows and gives the number back |
| `Rates.ScaledShortest` | src/hemlock-common/src/net.rs:167-174 | no number with a suffix spells a value in fewer characters than its formatted text |
| `Rates.PoliceRateIff` | src/hemlock-common/src/net.rs:101-157 | a formatted police rate, in bits or packets, reads back if and only if it is positive |
| `Rates.PoliceBurstIff` | src/hemlock-common/src/net.rs:127-165 | the same for bursts |
| `Rates.ShapeRateIff` | src/hemlock-common/src/net.rs:236-263 | a formatted shaper rate reads back if and only if it is at least 64000 |
| `StaticRoutes.AdmitsIff` | src/hemlock-mgmtd/src/intents.rs:4562-4590 | the tests on the two tables refuse a line exactly when it disagrees with an earlier line of its prefix on kind or distance |
| `StaticRoutes.ExtractRoutes` | src/hemlock-mgmtd/src/intents.rs:4537-4608 | extraction succeeds exactly when every line is well formed and lines of one prefix agree; each prefix then has the union of its next hops, is a null route exactly when that is empty, and has the one given distance or 1 |
| `StaticRoutes.GathersUnique` | src/hemlock-mgmtd/src/intents.rs:4537-4608 | those routes are determined by the set of lines |
| `StaticRoutes.OrderFree` | src/hemlock-mgmtd/src/intents.rs:4537-4608 | any two orders of the same lines give the same success and the same routes |
| `PortDiff.DeltaReaches` | src/hemlock-mgmtd/src/intents.rs:5600-5618 | a port's change takes its running state to the wanted one, and is empty exactly when they differ at most by a default spelled out before and gone now |
| `PortDiff.DiffReaches` | src/hemlock-mgmtd/src/intents.rs:5518-5593 | applying the whole diff leaves every port, configured or not, in its wanted state |
| `PortDiff.EmptyIff` | src/hemlock-mgmtd/src/intents.rs:5518-5593 | nothing is sent exactly when every port differs silently; equal configurations send nothing |
| `PortDiff.DiffPorts` | src/hemlock-mgmtd/src/intents.rs:5518-5593 | the two loops send one change per port that has something to say |
| `LagDiff.BuildLags` | src/hemlock-mgmtd/src/intents.rs:6310-6333 | every group that is configured or has a member, with its settings or the defaults, and exactly its members |
| `LagDiff.MemberIff` | src/hemlock-mgmtd/src/intents.rs:6322-6331 | a port is a member of its own group and of no other |
| `LagDiff.DiffLags` | src/hemlock-mgmtd/src/intents.rs:6336-6357 | each group that differs once; applying the changes gives the wanted groups; no change exactly for equal groups |
| `StormDiff.BuildStorm` | src/hemlock-mgmtd/src/intents.rs:6553-6566 | every interface with some level and no other, groups under their own names |
| `StormDiff.StormStateUnique` | src/hemlock-mgmtd/src/intents.rs:6553-6566 | a configuration determines that state |
| `StormDiff.DiffStorm` | src/hemlock-mgmtd/src/intents.rs:6569-6608 | the nested loops report each interface and kind whose level differs once, and nothing else |
| `StormDiff.StormReaches` | src/hemlock-mgmtd/src/intents.rs:6569-6608 | applying the changes to the two-level state gives the wanted two-level state; no change exactly for equal states |
| `StormDiff.DiffStormControl` | src/hemlock-mgmtd/src/intents.rs:6553-6608 | the same from configuration to configuration |
| `Validators.ValidateGroups` | src/hemlock-mgmtd/src/intents.rs:2796-2844 | accepts exactly groups of at most eight members of one mode, none with its own switchport |
| `Validators.ClaimSources` | src/hemlock-mgmtd/src/intents.rs:2859-2881 | accepts exactly when no port is a source of two sessions in one direction, and collects all sources |
| `Validators.ValidateMirrors` | src/hemlock-mgmtd/src/intents.rs:2856-2906 | accepts exactly session sets with single sources whose destinations are no source, no member and carry no address |
| `Validators.TopIff` | src/hemlock-mgmtd/src/intents.rs:3025-3033 | comparing the strict queues with as many top queues is asking that with a queue every higher one is strict |
| `Validators.ValidateQos` | src/hemlock-mgmtd/src/intents.rs:2986-3034 | accepts exactly queues that are strict or weighted but not both, shaped within the port, with an upward closed strict set |

## Left out

- ConfigLexer.LexText: line and column are unbounded, where the original counts in 32 bits.
- Migration.MigrationIff: refusals by statements the migration does not touch (addresses, VRRP, QoS and the like) are not modelled, so an interface refused for one of them counts as read; `set_phrase`, `redact_secrets` and the editing helpers of the tree are outside.
- Netdevs.RunState: a device that is missing ignores commands; commands on a present device are taken to succeed.
- Convergence.RunsConverge: the kernel starts without static routes and neighbours; the repair of connected routes after an address change, users, services, NTP and VRRP devices are not modelled; netdev names are taken to be distinct across families.
- RollbackStore.CrashSafe: each rename and each write is atomic; the JSON text of the metadata is taken to read back; `rollback` reads one slot, whose content `RollbackStore.RingIsHistory` gives.
- RollbackCrashes.AttributedIff: compares a slot with the files the commit started from, so a pair that was already wrong counts as kept; `RollbackHonesty.StopsHonestIff` does not.
- RollbackCrashes.LogHonest: one way, slot by slot: a slot in doubt may show a right entry by chance; the exact statements are `RollbackHonesty.StopsHonestIff` and `RollbackHonesty.RunsHonestIff`.
- Dot1x.RunInvariant: what a call does under the engine's lock is one step and each directive sent after it another; channels are sequences, clock readings are parameters, and the failure counter is unbounded; hostapd itself, its file and its socket are outside. That hostapd was told the current configuration last is not part of the invariant, because overlapping calls can break it; `Dot1x.FirstOutTells` and `Dot1x.ToldIff` say when it holds.
- DhcpPools.ValidatePools: addresses and networks are numbers, their text and the messages of errors are not modelled; which of several errors is reported first is left open.
- DhcpLeases.Snapshot: lease lines arrive parsed, counters are unbounded, and the standard library's stable sort is an insertion sort; clearing a lease rewrites dnsmasq's file as text and restarts the daemon, which are outside.
- DhcpLeases.CapacityIff: the wrap is the release build's; a build with overflow checks panics on that one range.
- Base64.DecodeText: characters stand for the bytes of the text; the PEM framing and the fingerprint around it are outside.
- Rates.PoliceRateIff: error messages are not modelled, a refusal is `None`; so in `ValueList.ParseValueList`.
- StaticRoutes.ExtractRoutes: the checks of prefixes, next hops and distance words are parameters.
- LagDiff.DiffLags: the settings of a group are one opaque field.
- Validators.ValidateQos: WRED profile references and the rule against queues on group members are not modelled; queue numbers arrive checked to be 0 to 7.
- The commit engine with its confirmation timers and remote calls, the SNMP session, the ASIC daemon, the web console and the command line are not part of this model.
- IPv6 networks, the texts of MAC and IP addresses, ACLs, spanning tree, routing protocols and the remaining validator checks are not part of this model: each reads or compares fields of its own, independently of what is modelled here.
