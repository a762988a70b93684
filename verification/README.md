# gonnect: verified models

This project models the parts of gonnect with the most logic in them and proves what they promise.
Every `.dfy` file is one module; `dafny verify dfyconfig.toml` checks all of them together.

**Routing bytecode** (`Bytecode`, `Assembler`, `SplitCompiler`, `Pruning`, `ResultCache`,
`SplitRouter`). Rules are stack bytecode over predicates. The validator, the stack machine, the compiler to route
segments over a condition arena, the three-valued analysis that leaves segments out of a method's
program, and the two result caches are modelled as they are written. A packet is a *valuation*: the
set of predicates that hold for it. The compiler theorem says more than "same slot": the segments
also consult the predicates in the order in which short-circuit evaluation of the source would.
The answers of rule matchers may change with time; the caches are then right within their lifetimes.
What is true of a packet is said of the packet itself, and not of the keys of the caches.

**Firewall optimiser** (`FirewallPorts`, `FirewallText`, `FirewallPatterns`, `FirewallHosts`,
`FirewallExact`, `FirewallNetwork`, `FirewallOptimize`, `FirewallLib`). A query is a peer, an
optional local end, a port, a network name or an IP protocol number, and the content of the reverse
DNS cache. Addresses are sequences of bits. The library functions (`netip` parsing and printing, `path.Match`) are a record `Lib` of arbitrary
functions of which `LibOk` says what their documentation says. `path.Match` is fixed completely on
patterns without a character class, and otherwise unconstrained. `FirewallLib` shows that these
assumptions can be met.

**Lifecycle protocols** (`Closers`, `Detached`, `RouterState`). One method per critical section,
proved against functions on the guarded fields; a state machine then runs these functions, and the
steps between them, in every order. A *done* channel is named by the generation that made it.

**Sniffing** (`Streams`, `Combinators`, `TlsHello`, `TlsRecords`, `Glob`, `Putback`, `Sniff`). Classifiers fed in
chunks, against the state that the whole prefix determines; the connection that takes bytes back.

**Wire formats and ports** (`Checksum`, `WireName`, `WireLayout`, `PortAllocator`). `Assembler`,
`TlsRecords` and `WireLayout` write formats out in numbers and bytes, so that readers and writers are
held to the format and not only to each other.

## Properties that are false of the code

Each has an input that shows it. Where an "if and only if" is stated it is proved in both
directions; where only a sufficient condition is known, it says so.

- Leaving out a segment that cannot trigger changes routes when the segment leaves values on the
  stack (`UnbalancedTextIsMisrouted`); it is safe in every text if and only if the segment is
  balanced (`PruningSafeIffBalanced`).
- The firewall optimiser promises the same policy. Entries without a character class (`[`):
  - Rewriting: a `%` outside an address is cut, and text is trimmed a second time; the entry `"* ."`
    widens to every host (`StarSpaceDotWidens`). The rewriting is faithful if and only if the text is
    an address, or has no `%` and is stable under trimming, or matches no name before and after: it
    is empty, ends in a lone backslash or starts with an escaped space (`FaithfulIff`).
  - Dropping covered entries: with a backslash in a literal, an entry is dropped although a name needs
    it (`BackslashSubsumptionUnsound`). Dropping is sound if and only if there is no backslash, or a
    pattern character, or an escaped space in front (`DroppingIsSoundIff`).
  - Rewriting again: merging two rules rewrites their entries a second time. Entries that the first
    pass keeps and the second drops leave an empty list, which selects every host
    (`MergedListWidens`).
  - An entry is `Clean` if and only if it is rewritten faithfully, to a text that a second pass leaves
    alone and that can be dropped soundly (`CleanIff`). For lists of clean entries the whole policy is
    preserved (`OptimizeFirewallRules`).
  - Entries with a character class: being stable under trimming and free of `%` is proved sufficient
    only.
- Coverage between firewall rules is sound but not complete: an address is not seen to cover its own
  prefix of full length, and an `ip` rule not a name such as `tcp7`. Otherwise a text without pattern
  characters or escapes, and every network, is covered if and only if the optimiser says so
  (`HostSubsumesIff`, `NetSubsumesExact`).
- A query by name and the same query by protocol number can be decided differently: the rule `ip4:6`
  matches protocol 6 of IPv4 and not the network `tcp4`. They are decided alike if and only if the rule does not give a protocol by number, or does not match the number
  (`NameAndNumberAgree`).
- "Everything is closed when Down returns" fails when calls overlap (`OverlappingDownReturnsEarly`):
  the second returns at once. Down, or Close, keeps the promise in every continuation if and only
  if, in its critical section, no other running call lists an object that is still open
  (`DownKeepsPromiseIff`, `CloseKeepsPromiseIff`).
- The lazy TLS classifier is in step with one that parses in every call if and only if the byte
  limit is at least 5 (`LazinessIsInvisibleIff`).
- Which child decides an Or, and so the metadata, depends on how the stream is cut
  (`DecidingChildDependsOnCuts`); the state does not. It is the same for every way of cutting a
  stream if and only if no lower child matches by the end of the stream (`DecidingChildIff`).
- A wire name round-trips if and only if it is absolute with labels of 1 to 63 bytes, or the root
  (`NameRoundTripIff`); an option list if and only if no option exceeds 65535 bytes
  (`OptRoundTripIff`).
- `alloc` refuses while two ephemeral ports are still free (`RefusesTooEarly`); it refuses if and
  only if at least 16382 are in use (`Alloc`).

## Model

| member | source | states |
|---|---|---|
| `Bytecode.ReadParamUnchecked` | routing/bytecode.go:247-260 | Where the parameter fits, the unchecked reader gives the value and the next position that the checked reader gives. |
| `Assembler.DecodeIffAssembled` | routing/bytecode.go:200-245 | A byte string decodes to a program if and only if it is the program written as opcodes with a slot byte or two parameter bytes, the low one first. |
| `Assembler.DecodeAssembled` | routing/parser.go:1220-1224 | Decoding what was assembled gives the program back, behind any other bytes. |
| `Assembler.AssembleDecoded` | routing/bytecode.go:200-245 | Only assembled programs decode. |
| `Assembler.RuleOneSlotTwo` | routing/bytecode.go:200-245 | The bytes 27 1 0 1 2 route to slot 2 if rule 1 holds, and to 0 otherwise. |
| `Assembler.OpcodesByNumber` | routing/bytecode.go:17-103 | What the opcodes 0 to 6 do to a stack. |
| `Assembler.OpcodeTable` | routing/bytecode.go:17-103 | What every opcode takes, leaves and has as parameter, and which route packets, by number. |
| `Bytecode.ValidateBytecode` | routing/bytecode.go:149-198 | Accepts exactly the byte strings that decode, use allowed opcodes and never pop an empty stack. |
| `Bytecode.ValidProgramsRun` | routing/router_bytecode.go:335-464 | Every program without underflow routes, for every valuation and every start stack. |
| `Bytecode.CompileSplitBytecode` | routing/split_bytecode.go:449-481 | The predecoded program is the decoding of the bytes, and the depth is the greatest depth that any run reaches. |
| `Bytecode.CountersMeasurePeak` | routing/split_bytecode.go:449-481 | The running depth counters equal the stack machine's own peak, however the program is split. |
| `Bytecode.StepInPlace` | routing/split_bytecode.go:224-324 | One opcode on the fixed array leaves exactly the stack that the machine's step gives. |
| `Bytecode.RouteByStack` | routing/split_bytecode.go:211-324 | The loop over a fixed array of the computed size, without bounds tests, returns the machine's slot. |
| `Bytecode.MarkSlots` | routing/bytecode.go:272-311 | Collects exactly the non-zero slots that SLOT instructions name. |
| `Bytecode.MentionedSlots` | routing/bytecode.go:268-311 | The named slots, each once, ascending. |
| `Bytecode.RoutedSlotIsMentioned` | routing/bytecode.go:268-311 | For every valuation the chosen slot is 0 or one that the program names. |
| `SplitCompiler.StackRunsSegments` | routing/split_bytecode.go:224-324 | The stack machine, which evaluates everything, takes the route that lazy evaluation of the source segments takes. |
| `SplitCompiler.EvalStable` | routing/split_bytecode.go:784-808 | Appending nodes to the arena never changes the meaning or the consulted predicates of an earlier node. |
| `SplitCompiler.CondBuilder.Add` | routing/split_bytecode.go:580-584 | Appends one node; every older node keeps its meaning. |
| `SplitCompiler.CondBuilder.Atom` | routing/split_bytecode.go:586-594 | The node means its predicate and consults only it. |
| `SplitCompiler.CondBuilder.Not` | routing/split_bytecode.go:596-614 | Constant folding and double-negation removal give the negation, consulting the same predicates in the same order. |
| `SplitCompiler.CondBuilder.And` | routing/split_bytecode.go:616-629 | Folding and flattening give the short-circuit conjunction of the operands. |
| `SplitCompiler.CondBuilder.Or` | routing/split_bytecode.go:631-645 | Folding and flattening give the short-circuit disjunction of the operands. |
| `SplitCompiler.JoinAnd` | routing/split_bytecode.go:647-663 | The flattened child list means the conjunction, in order. |
| `SplitCompiler.JoinOr` | routing/split_bytecode.go:647-663 | The flattened child list means the disjunction, in order. |
| `SplitCompiler.FastPredicates` | routing/split_bytecode.go:676-736 | A flat all/any list is produced only if it means, and consults, what the condition does. |
| `SplitCompiler.Predicates` | routing/split_bytecode.go:971-1089 | The flat loop equals the all/any meaning, value and consulted predicates. |
| `SplitCompiler.MatchSegment` | routing/split_bytecode.go:754-778 | The flat loop and the recursive evaluation are interchangeable. |
| `SplitCompiler.RouteBySegments` | routing/split_bytecode.go:754-778 | The first segment whose condition holds decides. |
| `SplitCompiler.CompileOp` | routing/split_bytecode.go:489-563 | The condition that one opcode puts on top means the expression that the source puts on top. |
| `SplitCompiler.CompileStep` | routing/split_bytecode.go:489-563 | Each opcode keeps the condition stack in step with the expressions that the source has on its stack. |
| `SplitCompiler.CompileTerminal` | routing/split_bytecode.go:489-563 | A segment is emitted, or left out when constantly false, without changing the route; a constantly true one always fires. |
| `SplitCompiler.CutOff` | routing/split_bytecode.go:489-563 | Code after a segment that always fires can be dropped. |
| `SplitCompiler.CertainAlways` | routing/split_bytecode.go:616-645 | A condition that is true before any predicate is asked is so for every packet. |
| `SplitCompiler.SegmentedCompiles` | routing/split_bytecode.go:489-563 | Programs whose terminals all empty the stack compile. |
| `SplitCompiler.CompileSplitRoute` | routing/split_bytecode.go:489-563 | Compiler correctness: it succeeds if and only if every terminal empties the stack, up to the first whose condition is true before any predicate is asked; then, for every packet, the segments choose the stack machine's slot and consult what lazy evaluation of the source consults. |
| `Pruning.SplitSegments` | routing/parser.go:426-455 | The loop computes the segments; a REMAP line, unknown to this dialect, ends one too. |
| `Pruning.SegmentsPartition` | routing/parser.go:426-455 | The segments in order are the text, and only the last line of a segment can end it. |
| `Pruning.WholeSegmentsFirst` | routing/parser.go:426-455 | Ended segments in front of any text are its first segments. |
| `Pruning.SegmentCanTrigger` | routing/parser.go:506-578 | The abstract stack loop decides whether a segment can trigger for a method. |
| `Pruning.Apply3Sound` | routing/parser.go:506-617 | The three-valued step agrees with the boolean step, above any base stack. |
| `Pruning.MethodOpcodes` | routing/parser.go:555-575 | The opcodes 28, 29 and 30 hold exactly for dial, listen and lookup. |
| `Pruning.PrunedNeverFires` | routing/parser.go:506-578 | Abstract-interpretation soundness: a segment left out never fires and never underflows, for every valuation of the method and above every stack. |
| `Pruning.ExactWithoutRuntimePredicates` | routing/parser.go:506-578 | On conditions of method opcodes and constants the analysis is exact. |
| `Pruning.DeriveProgram` | routing/parser.go:62-98 | The program of a method is the code of its kept segments; an unknown operation is an error exactly in a kept segment. |
| `Pruning.PruningPreservesRoutes` | routing/router_bytecode.go:335-464 | If the segments left out are balanced, every call routes as with all segments, from every stack. |
| `Pruning.DerivedRoutesLikeSource` | routing/parser.go:62-98 | The derived program routes every call of the method as the whole text does. |
| `Pruning.PruningSafeIffBalanced` | routing/parser.go:506-578 | A segment left out is invisible in every text, between whole segments and any other lines, if and only if it is balanced. |
| `Pruning.UnbalancedTextSegments` | routing/parser.go:426-455 | The three segments of a text of seven lines. |
| `Pruning.UnbalancedTextIsMisrouted` | routing/parser.go:62-98 | The program derived from these lines never underflows and takes another route than the text. |
| `ResultCache.CacheConfig` | routing/split_bytecode.go:1427-1448 | Negative values disable caching, positive ones are kept, zero selects the default. |
| `ResultCache.RouteCacheConfig` | routing/split_bytecode.go:1450-1477 | Two zeros inherit the rule cache's settings; otherwise negative disables, positive is kept, zero selects the default. |
| `ResultCache.Cache.Get` | routing/split_bytecode.go:1479-1533 | A hit was right at a moment less than the lifetime ago, through the last-entry fast path or the map; expired entries are never returned. |
| `ResultCache.Cache.Set` | routing/split_bytecode.go:1535-1573 | Afterwards every entry was right when it was stored, at most maxEntries remain, and nothing else is dropped while there is room. |
| `ResultCache.Cache.Prune` | routing/split_bytecode.go:1593-1635 | Exactly the live entries stay if they fit; otherwise half the capacity of them, at least one. |
| `ResultCache.Cache.Clear` | routing/split_bytecode.go:1575-1591 | Empties the cache and the fast path. |
| `SplitRouter.Eval.MatchRule` | routing/split_bytecode.go:1146-1181 | Unless a matcher failed, the answer is one the matcher gave during the evaluation or less than the rule lifetime before it began; false for flows that are not put to matchers. |
| `SplitRouter.Eval.Rule` | routing/split_bytecode.go:931-962 | The memo never changes an answer, so a rule has one truth value throughout an evaluation. |
| `SplitRouter.Eval.Atom` | routing/split_bytecode.go:1093-1144 | A predicate is what every valuation says that the packet and the answers so far leave open: families, protocols and ports from the packet, by opcode number. |
| `SplitRouter.Eval.EvalNode` | routing/split_bytecode.go:784-808 | Recursive evaluation of a condition gives its meaning under every valuation that the answers leave open. |
| `SplitRouter.Eval.RouteCompiled` | routing/split_bytecode.go:754-808 | The compiled form, evaluated with memo and caches, gives the slot of its meaning under every valuation that the answers leave open. |
| `SplitRouter.Eval.StackStep` | routing/split_bytecode.go:224-324 | One opcode with memo and caches leaves the machine's stack, for every valuation that the answers leave open. |
| `SplitRouter.Eval.RouteByStack` | routing/split_bytecode.go:224-324 | The same for the fallback loop and the stack machine's slot. |
| `SplitRouter.Router.EvaluateAnew` | routing/split_bytecode.go:211-324 | Without matcher failure, the slot is the stack machine's on answers given less than the rule lifetime before the evaluation began; cacheable exactly if no matcher failed. |
| `SplitRouter.Router.Recall` | routing/split_bytecode.go:199-210 | A route served from the cache was stored less than the route lifetime ago, and was right then. |
| `SplitRouter.SameKeySameFacts` | routing/split_bytecode.go:1347-1369 | Packets with the same route key, flags included, have the same facts at all times. |
| `SplitRouter.Router.Route` | routing/split_bytecode.go:189-333 | In any sequence of calls, with or without either cache, unless a matcher failed during the call: the slot is the stack machine's for this packet, either evaluated in this call or stored less than the route lifetime before it. |
| `SplitRouter.ServedAge` | routing/split_bytecode.go:189-333 | The answers behind a served route are younger than both lifetimes and the longest evaluation together. |
| `SplitRouter.ConstantAnswers` | routing/split_bytecode.go:189-333 | Cache transparency: if matcher answers do not change, every slot so obtained is the stack machine's for this packet. |
| `SplitRouter.Router.RouteConstant` | routing/split_bytecode.go:189-333 | So one call, from any state of the caches, returns the stack machine's slot unless a matcher fails during it. |
| `SplitRouter.Router.RouteAll` | routing/split_bytecode.go:189-333 | Cache transparency over a run: every call returns the stack machine's slot, except for at most as many calls as there were matcher failures. |
| `FirewallPorts.MatchPort` | firewall_config.go:717-735 | The loops over ports and ranges, read in either direction, decide membership; empty lists select every port. |
| `FirewallPorts.SortIntervals` | firewall_config_optimize.go:227-286 | Sorting keeps the intervals. |
| `FirewallPorts.Coalesce` | firewall_config_optimize.go:227-286 | Merging touching intervals keeps the set of ports and leaves gaps between intervals, also at 65535. |
| `FirewallPorts.SeparatedUnique` | firewall_config_optimize.go:227-286 | Sorted, disjoint, non-adjacent intervals are determined by the set of ports they cover. |
| `FirewallPorts.CanonicalFirewallPorts` | firewall_config_optimize.go:227-286 | The exact port set, in canonical form; empty lists stay empty. |
| `FirewallPorts.CanonicalPortsUnique` | firewall_config_optimize.go:227-286 | Canonical lists of the same ports are equal. |
| `FirewallPorts.PortsSubsumeExact` | firewall_config_optimize.go:415-456 | On canonical lists the interval-by-interval test holds if and only if one port set includes the other. |
| `FirewallPorts.PortsSubsumeSound` | firewall_config_optimize.go:415-456 | The test never misjudges inclusion, "every port" included. |
| `FirewallText.AsciiTables` | filter.go:217-223 | Space characters by number, letters in order. |
| `FirewallText.UnmapIff` | firewall_config.go:643-649 | Unmapping undoes mapping of every IPv4 address, and leaves exactly the other addresses alone. |
| `FirewallText.CanonicalPrefixMeaning` | firewall_config_optimize.go:200-213 | Masking changes no answer, and a prefix of mapped addresses becomes the prefix of the addresses they stand for. |
| `FirewallText.CanonicalPrefixTwice` | firewall_config_optimize.go:200-208 | Canonical prefixes are fixed points. |
| `FirewallText.PrefixInPrefix` | firewall_config_optimize.go:384-413 | A prefix that contains another's address and is no longer contains all its addresses. |
| `FirewallPatterns.LiteralOnly` | firewall_config.go:675-686 | A pattern without special characters matches itself only. |
| `FirewallPatterns.SampleMatches` | firewall_config.go:675-686 | Every well-formed pattern matches its sample. |
| `FirewallPatterns.DemandsAreMet` | firewall_config.go:675-686 | A name has each character at least as often as the pattern that matches it demands. |
| `FirewallHosts.NameMatches` | firewall_config.go:675-686 | The loop decides whether some pattern matches the normalised name; the empty name matches none. |
| `FirewallHosts.AddrMatches` | firewall_config.go:701-715 | The loops decide membership in the addresses or in some prefix. |
| `FirewallHosts.SelectorMatches` | firewall_config.go:651-673 | An address is matched by itself or by one of its cached names, a name by itself. |
| `FirewallHosts.BracketsAndZones` | firewall_config.go:168-201 | An address in brackets, with any zone, or both, is compiled to that address. |
| `FirewallHosts.CompileHostSelector` | firewall_config.go:168-201 | The compiled selector matches what the list of texts means, for names, addresses and cached names. |
| `FirewallHosts.CanonicalTextMeaning` | firewall_config_optimize.go:163-198 | The canonical text of a clean entry, escaped patterns and patterns without a name included, matches what the entry matches; an entry that is dropped matches nothing. |
| `FirewallHosts.HostSubsumesSound` | firewall_config_optimize.go:384-413 | A canonical text that is covered matches nothing more, for every endpoint and cache. |
| `FirewallHosts.SubsumptionIsStrict` | firewall_config_optimize.go:384-413 | Different canonical texts never cover each other both ways, so dropping covered ones drops no whole cycle. |
| `FirewallHosts.KeptCovers` | firewall_config_optimize.go:210-225 | Every entry is covered by one that is kept. |
| `FirewallHosts.RemoveSubsumedHosts` | firewall_config_optimize.go:210-225 | Keeps, in order, exactly the entries that no other entry covers. |
| `FirewallHosts.CanonicalFirewallHosts` | firewall_config_optimize.go:163-198 | The same endpoints are selected; the list is canonical; it is empty only if no entry can be kept; a canonical list is unchanged. |
| `FirewallHosts.HostsSubsumeSound` | firewall_config_optimize.go:362-382 | List subsumption is sound. |
| `FirewallExact.FaithfulIff` | firewall_config_optimize.go:163-198 | For every entry without a character class, rewriting keeps all queries if and only if the text is an address, or has no % and is stable under trimming, or matches no name before and after. |
| `FirewallExact.StarSpaceDotWidens` | firewall_config_optimize.go:163-198 | The entry "* ." is a name pattern, and becomes a selector for every endpoint. |
| `FirewallExact.DroppingIsSoundIff` | firewall_config_optimize.go:384-413 | Dropping a covered text is sound for every canonical covering text, endpoint and cache if and only if its backslashes are safe. |
| `FirewallExact.BackslashSubsumptionUnsound` | firewall_config_optimize.go:384-413 | For the literal of an a, one backslash and a b, dropping is unsound. |
| `FirewallExact.HostSubsumesIff` | firewall_config_optimize.go:384-413 | Between canonical texts, the second without pattern characters or escapes, coverage for all queries holds if and only if the test says so, or an address meets its own full prefix. |
| `FirewallExact.CleanIff` | firewall_config_optimize.go:163-198 | Clean entries are exactly those rewritten faithfully to a text that a second pass leaves alone and that can be dropped soundly. |
| `FirewallExact.MergedListWidens` | firewall_config_optimize.go:499-507 | Two lists that match nothing, each from a faithfully rewritten entry, merge into the empty list, which matches everything. |
| `FirewallExact.FleetingEntries` | firewall_config_optimize.go:163-198 | Two such entries. |
| `FirewallLib.SomeLibraryIsOk` | firewall_config.go:168-201 | The assumptions about netip and path.Match can be met together. |
| `FirewallNetwork.NetSubsumesByName` | firewall_config_optimize.go:322-360 | Network subsumption is sound for queries by network name. |
| `FirewallNetwork.NetSubsumesByNumber` | firewall_config_optimize.go:322-360 | Network subsumption is sound for queries by IP version and protocol number. |
| `FirewallNetwork.CanonicalNetworkMeaning` | firewall_config_optimize.go:128-137 | The canonical network matches the traffic that the original matches. |
| `FirewallNetwork.NameAndNumberAgree` | firewall_config.go:735-822 | For tcp, udp and icmp of both families, a rule matches by name if and only if it matches by version and number and is not itself given by number. |
| `FirewallNetwork.ProtocolText` | firewall_config.go:817-821 | A protocol text is accepted if and only if it is decimal digits of value at most 255, and stands for that value. |
| `FirewallNetwork.NumberedRule` | firewall_config.go:802-822 | A numbered rule matches exactly its protocol, in its family or in both. |
| `FirewallNetwork.NetSubsumesExact` | firewall_config_optimize.go:322-360 | One network covers another for all traffic if and only if the test says so, or an ip rule meets an odd name. |
| `FirewallOptimize.CompileFirewallRules` | firewall_config.go:151-166 | Compiled rules match exactly what the rules match, outgoing and incoming. |
| `FirewallOptimize.MatchRule` | firewall_config.go:392-468 | The tests of one rule, in order, decide whether it matches the query. |
| `FirewallOptimize.MatchFirewallRules` | firewall_config.go:392-590 | The scan finds a match if and only if some compiled rule matches. |
| `FirewallOptimize.CanonicalFirewallRule` | firewall_config_optimize.go:128-161 | The canonical rule matches the same queries; a rule is dropped only if it matches none; canonical rules are unchanged. |
| `FirewallOptimize.RuleSubsumesSound` | firewall_config_optimize.go:315-320 | A subsumed rule matches nothing that the other does not. |
| `FirewallOptimize.StrikeOne` | firewall_config_optimize.go:288-313 | Striking a rule keeps every struck rule covered by one that is still kept. |
| `FirewallOptimize.StrikeSubsumedBy` | firewall_config_optimize.go:288-306 | The inner loop strikes what rule i subsumes and settles i for good. |
| `FirewallOptimize.RemoveSubsumedRules` | firewall_config_optimize.go:288-313 | The same policy; no kept rule subsumes another; a list without such pairs is unchanged. |
| `FirewallOptimize.MergeHostSelectors` | firewall_config_optimize.go:499-507 | The merged list selects what either list selects, "any host" included. |
| `FirewallOptimize.MergeRules` | firewall_config_optimize.go:458-497 | Rules merge exactly when they differ in one dimension at most; the result is canonical and matches what either matched. |
| `FirewallOptimize.MergeFirstPair` | firewall_config_optimize.go:95-113 | One pass merges a pair if and only if there is one, keeps the policy and shortens the list. |
| `FirewallOptimize.SortRules` | firewall_config_optimize.go:115-121 | A permutation, ordered by key. |
| `FirewallOptimize.StablePermutes` | firewall_config_optimize.go:115-121 | Stability and policy do not depend on the order of the rules. |
| `FirewallOptimize.OptimizeFirewallRules` | firewall_config_optimize.go:82-126 | Policy preservation for every query, with local hosts ignored for outgoing rules; the result has no pair that subsumes or merges; optimising a stable list only reorders it; the loop terminates. |
| `FirewallOptimize.StableIsClean` | firewall_config_optimize.go:82-126 | What the optimiser returns it accepts again. |
| `FirewallOptimize.OptimizeTwice` | firewall_config_optimize.go:82-126 | Idempotence: optimising twice gives the same rules as optimising once, in order of the key. |
| `FirewallOptimize.DecideOptimized` | firewall_config_optimize.go:22-33 | Optimising, compiling and matching decides as the original rules do. |
| `FirewallOptimize.MergeFirewallConfigs` | firewall_config_optimize.go:55-80 | The merged rules match exactly what some non-nil config matches. |
| `Closers.Enumerate` | detachable.go:128-132 | A drain list holds every tracked object, each entry once. |
| `Detached.DetachedNetwork.constructor` | detachable.go:66-77 | A new wrapper is up, in generation 1, and tracks nothing. |
| `Detached.DetachedNetwork.Up` | detachable.go:92-111 | The whole new state; fails exactly when closed, and otherwise leaves the wrapper up, in a new generation if it was down. |
| `Detached.DetachedNetwork.TakeDown` | detachable.go:115-137 | The whole new state, the channel to close, and a list of everything that was tracked. |
| `Detached.DetachedNetwork.TakeClose` | detachable.go:946-981 | The same for closePrep. |
| `Detached.DetachedNetwork.Begin` | detachable.go:855-869 | An operation starts with the current generation and channel, or not at all. |
| `Detached.DetachedNetwork.Reserve` | detachable.go:983-991 | A fresh id exactly while the wrapper is up and, for an operation, in its generation. |
| `Detached.DetachedNetwork.Finish` | detachable.go:997-1006 | The object is stored under the same condition, checked again. |
| `Detached.DetachedNetwork.Unregister` | detachable.go:928-932 | Forgets one id. |
| `Detached.StepKeeps` | detachable.go:92-150 | Each of 18 kinds of step, in any state, keeps the invariant. |
| `Detached.RunsKeep` | detachable.go:92-150 | Every run keeps the invariant. |
| `Detached.HandedOutIsAccountedFor` | detachable.go:983-1006 | In every reachable state an object handed out is tracked, closing, or in a drain list. |
| `Detached.ProducedIsNeverLost` | detachable.go:1243-1285 | Every object the wrapped network produced is handed out, closing, or held by an operation in flight; with none in flight nothing is lost. |
| `Detached.ReturnLeavesNothingOpen` | detachable.go:115-150 | When Down or Close returns, what was handed out before it is closing or in the list of another such call still running. |
| `Detached.ReturnClosesAllIff` | detachable.go:113-141 | At its return, everything handed out before a Down or Close is closing if and only if no other running call lists such an object that is not. |
| `Detached.DownKeepsPromiseIff` | detachable.go:113-141 | Whenever Down returns, in every continuation, everything handed out before its critical section is closing, if and only if at that section no running call lists an open object. |
| `Detached.CloseKeepsPromiseIff` | detachable.go:143-150 | The same for Close. |
| `Detached.OverlappingDownReturnsEarly` | detachable.go:115-124 | A reachable state in which a Down returns while an earlier object is neither closed nor closing. |
| `Detached.DoneClosesOnce` | detachable.go:139-149 | No done channel is closed twice. |
| `Detached.StaleWaiterIsWoken` | detachable.go:855-880 | A caller waiting since an earlier generation has a done channel that is closed or about to be. |
| `Detached.HandoutIsCurrent` | detachable.go:983-1006 | Only the second tracking section hands out, while up, and for an operation only in the generation it began in. |
| `Detached.NothingHandedOutAfterClose` | detachable.go:946-1006 | After Close, no run hands out anything more. |
| `Detached.AcceptedIsHandedOut` | detachable.go:1188-1236 | In every reachable state in which the wrapper is up, an accepted connection can be handed out and is then tracked. |
| `Detached.UpLeadsUp` | detachable.go:92-111 | In every reachable state that is not closed, Up leads to a state that is up; from down, in a generation no waiting operation began in, with a channel nobody closes. |
| `Detached.OperationIsHandedOut` | detachable.go:855-1006 | From every reachable state that is up, an operation can be carried through its five steps until its object is handed out and tracked under a new id. |
| `Detached.NothingIsStuck` | detachable.go:855-1006 | In every reachable state every operation and every Down or Close can take its next step. |
| `Detached.LeftBehindIsClosed` | detachable.go:1243-1285 | What a caller leaves behind is late, and discarding it closes it and ends the operation. |
| `Detached.StaleIsRefused` | detachable.go:983-1006 | What an operation of another generation produced is not handed out. |
| `RouterState.Router.constructor` | router.go:92-103 | A new router wants to be up and is down. |
| `RouterState.Router.DrainTracked` | router.go:350-361 | All three maps are emptied into one list. |
| `RouterState.Router.ApplyEffectiveState` | router.go:319-340 | The whole new state; a channel and a list exactly when the router stops. |
| `RouterState.Router.ApplyAutoState` | router.go:306-317 | The loop decides whether some attached slot is up. |
| `RouterState.Router.ReplaceSlot` | router.go:185-220 | The whole new state, the objects of the slot, and the router's own transition. |
| `RouterState.Router.SetSlotUp` | router.go:278-304 | Ignored when closed or for an earlier backend; otherwise the whole new state. |
| `RouterState.Router.Want` | router.go:377-402 | Up and Down: the whole new state and transition. |
| `RouterState.Router.ClosePrep` | router.go:1299-1348 | The whole new state; everything tracked is listed. |
| `RouterState.Router.SubscribeInSlot` | router.go:424-465 | An accepted connection is tracked in its slot exactly while the router is up. |
| `RouterState.Router.ReserveTracked` | router.go:1244-1253 | A fresh id in the operation's generation only. |
| `RouterState.Router.FinishTracked` | router.go:1255-1275 | The object is stored, also under its slot, in the operation's generation only. |
| `RouterState.Router.FinishUdp` | router.go:1213-1242 | The same for a UDP listener, which belongs to no slot. |
| `RouterState.Router.Unregister` | router.go:1277-1285 | Forgets the id in all three maps. |
| `RouterState.EffectiveKeepsMaps` | router.go:319-340 | Going up resets only maps that are already empty, so it loses nothing. |
| `RouterState.SwappedAgree` | router.go:185-220 | Emptying one slot keeps the three maps in agreement and takes exactly its ids. |
| `RouterState.StepKeeps` | router.go:185-340 | Every critical section keeps the invariant. |
| `RouterState.RunsKeep` | router.go:185-340 | Every run keeps the invariant. |
| `RouterState.UpIsDecided` | router.go:306-340 | In every reachable state: up if and only if not closed, wanted up, and some attached slot is up. |
| `RouterState.TrackedConsistently` | router.go:1244-1285 | In every reachable state bySlot and udp list tracked objects, and a router that is down tracks nothing. |
| `RouterState.ReplaceTakesTheSlot` | router.go:185-220 | Replacing a backend takes exactly the objects opened through its slot unless the router goes down. |
| `RouterState.DoneTakenOnce` | router.go:319-374 | No done channel is handed out for closing twice. |
| `RouterState.OperationIsTracked` | router.go:1244-1275 | While the router is up, an operation of its generation is tracked under a new id, in its slot. |
| `RouterState.AcceptedIsTracked` | router.go:424-470 | While the router is up, an accepted connection of each of the sixteen slots is tracked there. |
| `RouterState.UdpIsTracked` | router.go:1213-1253 | The same for UDP. |
| `RouterState.StaleIsNotTracked` | router.go:1213-1275 | An operation of another generation is not tracked. |
| `RouterState.ChangeIsNewGeneration` | router.go:319-340 | Going up or down starts a new generation, and going up a channel that nobody has been told to close. |
| `Combinators.JudgeIsTerminal` | sniffer/combinators.go:34-204 | For every tree over leaves that keep their verdict, Match and Mismatch persist on every extension. |
| `Combinators.FeedPrefix` | sniffer/basic.go:21-42 | The state after any chunks is the comparison of the whole prefix. |
| `Combinators.FeedAnd` | sniffer/combinators.go:34-63 | The three-valued conjunction on everything fed, although finished children are not fed and a mismatch returns early. |
| `Combinators.FeedOr` | sniffer/combinators.go:130-160 | The three-valued disjunction, and the lowest child that matches. |
| `Combinators.Feed` | sniffer/combinators.go:190-204 | Feed of any tree, with Not and Limit among its nodes, returns the tree's meaning on everything fed so far. |
| `Combinators.FeedAll` | sniffer/basic.go:109-129 | Chunk independence: every way of cutting a stream into one or more calls ends in the same state; an Or reports the lowest match at the first cut that has one. |
| `Combinators.DecidingChildIff` | sniffer/combinators.go:130-160 | The deciding child is the same for every way of cutting a stream if and only if no lower child matches by its end. |
| `Combinators.DecidingChildDependsOnCuts` | sniffer/combinators.go:130-160 | Two runs over the same two bytes, in one call and in two, decided by different children. |
| `TlsHello.ParseClientHello` | sniffer/tls.go:339-397 | The record loop computes the recursive meaning over any number of records. |
| `TlsRecords.HelloIff` | sniffer/tls.go:339-397 | A ClientHello is found if and only if handshake records carry it, byte by byte: type, three length bytes and body, cut in any way, the last record possibly incomplete. |
| `TlsRecords.SentIsFound` | sniffer/tls.go:339-397 | Every body of 1 to 2^24 - 1 bytes is found, for every cut into fragments of 1 to 16384 bytes and whatever follows. |
| `TlsHello.VerdictPersists` | sniffer/tls.go:339-397 | A ClientHello found, or ruled out, on a prefix is the answer on every extension, with the same body. |
| `TlsHello.NeedPersists` | sniffer/tls.go:399-419 | The bytes needed exceed those present, and stay the answer on every extension shorter than that. |
| `TlsHello.VerdictIsTerminal` | sniffer/tls.go:259-307 | The classifier's verdict never changes, at the byte limit included. |
| `TlsHello.RunsAgree` | sniffer/tls.go:259-307 | For a limit of at least 5, the lazy machine and one that parses in every call have the same fields after every call, and the state that all bytes so far determine. |
| `TlsHello.LazinessIsInvisibleIff` | sniffer/tls.go:259-307 | The two machines are in the same state after every call, for all ways of cutting all streams, if and only if the limit is at least 5. |
| `TlsHello.LazyRunState` | sniffer/tls.go:259-307 | Chunk independence: for every limit the state is a function of the bytes fed, however they are cut. |
| `TlsHello.TlsClassifier.Feed` | sniffer/tls.go:259-307 | Feed is the lazy machine's step on the classifier's fields. |
| `Glob.CompileHttpGlob` | sniffer/http.go:540-575 | The loop computes the tokens, with escapes and a trailing backslash. |
| `Glob.QuotedMatchesItself` | sniffer/http.go:540-575 | A quoted value compiles to a pattern that matches it and nothing else. |
| `Glob.CompileEscaped` | sniffer/http.go:540-575 | Byte 92 makes the next byte stand for itself. |
| `Glob.StarBetween` | sniffer/http.go:540-575 | Byte 42 between two quoted values stands for any bytes. |
| `Glob.QueryBetween` | sniffer/http.go:540-575 | Byte 63 stands for exactly one byte. |
| `Glob.NewStarCoversOld` | sniffer/http.go:577-610 | At a new star the old backtrack point can be forgotten. |
| `Glob.MatchGlob` | sniffer/http.go:577-610 | Greedy matching with one backtrack point decides the declarative meaning, and terminates. |
| `Putback.Conn.PutBack` | putback/conn.go:114-132 | The unread stream is the bytes put back followed by what it was. |
| `Putback.Conn.Read` | putback/conn.go:173-202 | A non-empty prefix of the unread stream, or the error once there is none; an error that came with bytes is deferred. |
| `Putback.Conn.WriteBufferedTo` | putback/conn.go:266-298 | Bytes written plus bytes unread are what they were, whatever the writer does. |
| `Sniff.FeedByte` | sniffer/sniff.go:90-110 | One byte to every active classifier: their states on the longer prefix, the number still active, the lowest match. |
| `Sniff.Scan` | sniffer/sniff.go:80-118 | The bytes of one read: the first byte with a match decides, or all are out, or all of it is quiet. |
| `Sniff.AnswerIsUnique` | sniffer/sniff.go:46-134 | The answer is determined by classifiers, stream, budget and final error. |
| `Sniff.SniffConn` | sniffer/sniff.go:46-134 | However Read cuts the stream: the lowest index at the earliest matching byte, no match, or the read error; the unread stream is as before on every exit. |
| `Sniff.TlsIsSteady` | sniffer/tls.go:259-307 | The TLS classifier is a leaf for which all this holds. |
| `Checksum.FoldMeaning` | dns/ip_packet_adapter.go:486-501 | Folding keeps the sum modulo 65535, and only zero folds to zero. |
| `Checksum.ComputeChecksum` | dns/ip_packet_adapter.go:486-501 | Up to 65537 words the 32-bit accumulator does not wrap and the result is the complement of the folded sum. |
| `Checksum.CompletedChecksToZero` | dns/ip_packet_adapter.go:478-501 | A sum completed by its checksum, in either form of zero, checks to zero. |
| `Checksum.FieldAddsUp` | dns/ip_packet_adapter.go:364-425 | Filling a checksum field at an even offset adds its value to the sum, odd lengths included. |
| `Checksum.Ipv4PacketValidates` | dns/ip_packet_adapter.go:431-439 | For all addresses, ports and fitting payloads the UDP checksum is non-zero and validates, and the IPv4 header checks to zero. |
| `Checksum.Ipv6PacketValidates` | dns/ip_packet_adapter.go:445-450 | The same for IPv6. |
| `Checksum.Packet4Validates` | dns/ip_packet_adapter.go:364-388 | In the bytes of the packet, read where a receiver reads them, are the exchanged addresses, the payload, a header whose checksum verifies and a non-zero UDP checksum that the validator accepts. |
| `Checksum.Packet6Validates` | dns/ip_packet_adapter.go:390-412 | The same for IPv6, which has no header checksum. |
| `Checksum.BuildIpv4` | dns/ip_packet_adapter.go:364-388 | The packet written in place is exactly header and UDP part with addresses and ports exchanged, and validates; none exactly if it would not fit. |
| `Checksum.BuildIpv6` | dns/ip_packet_adapter.go:390-412 | The same for IPv6. |
| `WireLayout.AnswerIsReceived4` | dns/ip_packet_adapter.go:364-425 | A receiver that reads the bytes by RFC 791 and RFC 768 finds version, lengths, protocol, exchanged addresses and ports, the payload, and checksums that add up. |
| `WireLayout.AnswerIsReceived6` | dns/ip_packet_adapter.go:390-425 | The same for IPv6. |
| `WireLayout.SumIsTally` | dns/ip_packet_adapter.go:486-501 | The sum of words is what each byte contributes by its place. |
| `WireName.AppendWireName` | dns/wire.go:389-398 | The loop appends the encoding of any text. |
| `WireName.UnpackWireName` | dns/wire.go:363-387 | The loop computes the decoding at any offset, errors included. |
| `WireName.DecodedIsWellFormed` | dns/wire.go:363-387 | Every decoded name is the root or absolute with labels of 1 to 63 bytes. |
| `WireName.NameRoundTripIff` | dns/wire.go:363-398 | At any offset, with any bytes around it, a name decodes to itself with the exact end if and only if it is well formed. |
| `WireName.SoaRoundTripIff` | dns/wire.go:307-342 | SOA data round-trips if and only if both names are well formed. |
| `WireName.UnpackOpt` | dns/wire.go:344-361 | The loop computes the decoding, errors included. |
| `WireName.PackOpt` | dns/wire.go:290-299 | The loop computes the encoding, with the length cut to 16 bits. |
| `WireName.OptRoundTripIff` | dns/wire.go:290-361 | Options round-trip if and only if none exceeds 65535 bytes. |
| `WireLayout.NameOnTheWire` | dns/wire.go:389-398 | A name of labels is written as each label behind its length, then a zero. |
| `WireLayout.SoaOnTheWire` | dns/wire.go:275-282 | SOA data is two names and five numbers of four bytes, the highest first, in the order of RFC 1035. |
| `WireLayout.OptionOnTheWire` | dns/wire.go:290-299 | An option is code and length in two bytes each, the high one first, then the data. |
| `PortAllocator.SomeFree` | loopback_helpers.go:127-147 | Pigeonhole: below 16384 ephemeral ports in use, one is free. |
| `PortAllocator.Allocator.IsVoid` | loopback_helpers.go:68-76 | Nothing is in use. |
| `PortAllocator.Allocator.Reserve` | loopback_helpers.go:80-96 | The port is in use afterwards; fails exactly if it was before; the counter stays exact. |
| `PortAllocator.Allocator.Free` | loopback_helpers.go:100-111 | The port is not in use afterwards; the counter stays exact. |
| `PortAllocator.Allocator.FindFree` | loopback_helpers.go:133-147 | The search terminates at the first free port on the way round, also after next wrapped past 65535. |
| `PortAllocator.Allocator.Alloc` | loopback_helpers.go:117-148 | A given port, or a free ephemeral one; refuses if and only if at least 16382 are in use; the counter stays exact. |
| `PortAllocator.RefusesTooEarly` | loopback_helpers.go:127-132 | At the limit two ephemeral ports are still free. |

## Left out

- OptimizeFirewallRules: requires clean host entries; for entries without a character class `CleanIff` says which these are and why, and `MergedListWidens` shows a policy that changes without.
- CanonicalFirewallHosts: requires clean host entries, for the same reason.
- FaithfulIff: excludes entries with a character class, on which path.Match is not modelled; for them the condition is proved sufficient only.
- CleanIff: excludes entries with a character class, for the same reason.
- SplitRouter.Router.Route: says nothing about a call during which a matcher fails, since the source then answers false for that rule without caching.
- SplitRouter.Matchers.Match: a matcher's answer counts for the moment at which it is recorded, so the time a matcher takes is not part of its age.
- CompileSplitRoute: requires validated code, as its caller does; a packet's destination is never a host name.
- SortRules: the sort key is any function to text; the key's own format is not modelled.
- ReturnLeavesNothingOpen: "closing" means that Close was called on the object; that it returns is up to the object.
- Feed: classifier trees are values that Feed returns anew, not objects updated in place, because classifiers of different kinds share no class here; aliasing between children is not captured.
- SniffConn: reads that return no bytes and no error are excluded, as a `net.Conn` should not do that.
- Counters (`gen`, `nextID`, `slotGen`) are unbounded; 64-bit wrap-around is not modelled.
- Text operations know ASCII only: lower-casing and space trimming of other characters is not modelled.
- The per-packet memo of the split router is a map and not a pair of bit masks; building the flow tuple may fail and counts as a matcher failure.
- DNS names learnt from a DNS storage in the split router, and the tables of strings, regular expressions, addresses and subnets: what they say of two addresses is any function, and that indices lie inside them is not part of validation here.
- parseFirewallHost and its shortcut for texts that cannot be addresses: endpoints are given as names or addresses.
- Subscribers (SubscribeCloser without a slot, SubscribeUpDown) of the two lifecycle types: registering and notifying only.
- A dial that races with Attach on the same slot, and overlapping Attach calls: the source checks the router's generation only.
- Goroutines, contexts, timers and mutexes as such; they appear as atomic steps in any order.
- parseTLSClientHelloBody and the matching of its fields: any function of the body.
- HTTP and the other protocol classifiers, dnsmessage, IP packet parsing: fixed-format code that would add only easy members.
- Native networks, socket options, socket owners, loopback streams, DNS transports and the forwarding wrappers: operating system calls or delegation.
