# A verified model of the quantum-safe lab

The lab builds a topology of switches, hosts and two key management entities
(KMEs) from templates, issues its certificates, and checks the running system.
This project models the parts of it that hold real logic and proves what they
are for, in Dafny 4.11:

    dafny verify dfyconfig.toml

| file | models |
|---|---|
| Text.dfy | Python's string searching, splitting and stripping, used by the others |
| ScanProtocol.dfy, KmeScanner.dfy | the scan threads and status handlers of any number of KMEs, with their locks |
| RenderTopo.dfy | template substitution, in one and two stages |
| LabDict.dfy | the dict of substitutions and the snippet contexts, computed from the two subnets |
| RenderValidate.dfy, Topology.dfy | what the validator then finds in the rendered switch configurations and topology |
| YamlScalars.dfy | which of the texts in a topology file are read as strings |
| MgmtAddresses.dfy | management addresses made by gluing a suffix onto address text |
| Routing.dfy | links, interface addresses and static routes, IPv4 and IPv6 |
| KmeFirewall.dfy, KmeAllowlist.dfy | the iptables program of the KME entrypoint, and the allowlist it builds in the rendered lab |
| SiteConfig.dfy | the generated block in README.md and mkdocs.yml |
| RadsecPki.dfy, KmePki.dfy | the two certificate directories and their caches |
| SakProfiles.dfy, QuadraStatus.dfy | the parsers of running-config and of `show daemon quadra` |
| SakTemplates.dfy | the two MACsec snippets, rendered and parsed |
| QuadraPeers.dfy | the two QuaDRA agents against data plane, certificates and firewall of the same lab |
| SyslogSupervisor.dfy | the readiness supervisor of the syslog container |
| CeosJson.dfy | searching the JSON output of a switch |

Code that changes state is modelled by methods and classes that are proved
equal to functions; the theorems are about those functions.

What the proofs found where the code does not do what one would expect (each
is a lemma below, with the exact condition):

* `OrderShowsExactly`: the order of a dict shows in some rendering exactly when
  some value, from a `$` on, agrees with the token of another key as far as both
  go (and that key is not its own value).
* `AppendAddsExactly`: an IPv6 management address is the network address plus
  the suffix digits read as hexadecimal exactly when the last 16 bits of the
  network address are zero and the digits fit into the last group.
  `NodesIpv6Exactly`: the suffix table fits exactly the networks that are a /121
  or wider and end in 16 zero bits.
* `TopologyPasses`: a subnet argument must be a text that YAML reads as a string,
  in particular not empty, where everything else, and the validator, takes the
  default subnet; and so must the text of the IPv6 gateway. `AddressIsString`: an
  address text is one exactly when it does not end in `::` and is not eight decimal
  groups, all but the first below 60, which is a number. `GatewayNotString`:
  1:2:3:4:5:6:7:9 is such a gateway.
* `NewDomainMeansNewExactly`: "established new domain" means a new ID for every
  list exactly when the old IDs are distinct.
* `PeerHostExactly`: a peer URL gives its host exactly when that has no `:` and no
  `/`. `BracketedPeer`: a bracketed IPv6 address becomes the IPv4 source up to its
  first colon, and the simulator is not started if IPv4 can be restricted.
* `SyncIdempotentExactly`: a block whose body contains the end marker makes the
  file grow with every sync. `PurposeSyncsTwice`: a begin marker left without an
  end loses the text between it and the Purpose heading at the second sync.
* `ClientCnExactly`: the common name of a client certificate stays that of the
  first run. `LostCaLeavesStale`: after ca.crt is deleted, exactly the certificates
  whose cache entry is current are exported without the new CA's signature.
  `CapableCaGoesUnnoticed`: the same for SAE certificates when the KME CA is
  replaced by another capable one. `MarkerExactly`: markers are alike exactly when
  the entries split into the same texts at commas.
* `ParsePrinted`: a plain key of a single digit is parsed as the key's type exactly
  when indented text follows its line.
* `StatusRoundTrip`: a row of `show daemon quadra` that looks like the table's
  heading is dropped, and `StatusOfTable`: its wrapped lines are glued to the row
  above. A table with distinct keys comes back exactly when no row does.
  `DataRateLost`: "Data Rate" with "Value 3" is such a row.
* `ExitExactly`: the syslog supervisor exits with status 0 exactly when an attempt
  succeeds and no restart finds the network gone, so also when a recovery fails.
  `FailedRecoveryExitsZero` is such a run.

## Model

| member | source | states |
|---|---|---|
| ScanProtocol.LockInvStep | docker/kme/scanner.py:14-52 | every step of any scanner or handler keeps the lock invariant: a lock has exactly the holder that the phases say, with or without holding it while fetching |
| ScanProtocol.DataInvStep | docker/kme/scanner.py:15-43 | every step keeps the data invariant: list, running round and last round agree |
| ScanProtocol.ReachableInv | docker/kme/scanner.py:13-53 | both invariants hold in every reachable interleaving of any number of KMEs |
| ScanProtocol.ListIsLastRound | docker/kme/scanner.py:19-42 | in every reachable state the list is empty during a round and otherwise the successful replies of the last completed round in OTHER_KMES order, and a KME's reply is that KME's record |
| ScanProtocol.RoundExactly | docker/kme/scanner.py:14-43 | from the steps of any run: in a round that was published the requests were closed one for each entry of OTHER_KMES, the outcome of each is a reply exactly when it was closed by an answer, a KME's answer is that KME's record, any other was given in this round, and the list is the replies |
| ScanProtocol.FullRound | docker/kme/scanner.py:14-43 | so if no request of the round failed the list has one record for each entry, in order, and that of a KME is its own |
| ScanProtocol.RequestsConserved | docker/kme/scanner.py:22-34 | requests at a KME neither vanish nor multiply: how many are queued or served there changes just by those that a step brings, settles, or loses with their connection |
| ScanProtocol.NothingPending | docker/kme/scanner.py:22-34 | and at first there are none |
| ScanProtocol.RoundRuns | docker/kme/scanner.py:14-53 | a scanner at the start of a round can take it to its end with every request answered, without anybody else moving |
| ScanProtocol.AnotherRound | docker/kme/scanner.py:14-53 | from every reachable state in which no lock is held a sleeping scanner can run one more round, after which it lists every KME it asks |
| ScanProtocol.FindKmeOrigin | docker/kme/scanner.py:55-63 | find_kme answers with its own identity or a record some entry returned in the last completed round, and nothing remote while a fetch is in flight |
| ScanProtocol.HolderIsFree | docker/kme/scanner.py:22-24 | a thread that holds a lock never waits for anything |
| ScanProtocol.WaitingExactly | docker/kme/scanner.py:15-41 | a thread at a lock waits for another exactly when it cannot take the lock |
| ScanProtocol.WaitingIsAcyclic | docker/kme/scanner.py:22-24 | whenever one thread waits for another in a reachable state, the rank goes down: no cycle of waiting for any graph |
| ScanProtocol.NeverStuck | docker/kme/scanner.py:14-53 | while a round is in flight, a step that helps it is enabled, without a request to a KME failing |
| ScanProtocol.WorkDecreases | docker/kme/scanner.py:14-53 | every internal step of any thread leaves less work |
| ScanProtocol.InternalRunsEnd | docker/kme/scanner.py:14-53 | a run of internal steps is no longer than the work it starts from |
| ScanProtocol.RoundsFinish | docker/kme/scanner.py:14-53 | while no new round and no new request starts, a run under any schedule is no longer than that bound, and where nothing but a failing request can move any more, every round is over; in the variant the same situation is a deadlock (`StuckIsDeadlock`) |
| ScanProtocol.DeadlockPersists | docker/kme/scanner.py:22-24 | in the variant that keeps the lock while fetching, a set of KMEs parked on one another stays parked at every step except a failing request of a member |
| ScanProtocol.DeadlockForever | docker/kme/scanner.py:22-24 | and so through whole runs |
| ScanProtocol.DeadlockIsTrap | docker/kme/scanner.py:22-24 | the members of a deadlock each ask another member |
| ScanProtocol.StuckIsDeadlock | docker/kme/scanner.py:22-24 | if a round of the variant is in flight and nothing can move, the scanners that hold their locks are deadlocked |
| ScanProtocol.VariantDeadlocksIff | docker/kme/scanner.py:22-24 | the variant reaches a deadlock exactly when some non-empty set of KMEs each ask a member of it |
| ScanProtocol.LabVariantDeadlocks | docker/kme/scanner.py:22-24 | two KMEs that scan each other deadlock in the variant, as the comment says |
| KmeScanner.SuccessOrigin | docker/kme/scanner.py:25-39 | exactly the replies of a round are kept, the failed fetches are not |
| KmeScanner.SuccessAt | docker/kme/scanner.py:25-39 | and they are kept in the order of the requests |
| KmeScanner.SuccessCount | docker/kme/scanner.py:25-39 | one record for each reply |
| KmeScanner.Scanner.Round | docker/kme/scanner.py:15-52 | one pass leaves the list with exactly the replies, in order, and prints the announcement for the old and new list |
| KmeScanner.Scanner.Start | docker/kme/scanner.py:13-53 | the whole loop, over any rounds: final list and all announcements |
| KmeScanner.Scanner.FindKme | docker/kme/scanner.py:55-63 | the own identity if asked for, else the first record for the SAE, else nothing |
| KmeScanner.LookupOrigin | docker/kme/scanner.py:55-63 | whatever is found is the own identity or a record of the list for that SAE |
| KmeScanner.LookupExactly | docker/kme/scanner.py:55-63 | the own identity for the own SAE, else the first record for the SAE by its index, else nothing |
| KmeScanner.AnnounceExactly | docker/kme/scanner.py:44-50 | which of the messages is printed, or none, in every case |
| KmeScanner.UnionSize | docker/kme/scanner.py:44 | the size of the set of all IDs is that of the old ones plus the number of new ones |
| KmeScanner.NewDomainExactly | docker/kme/scanner.py:44-50 | "established new domain" is printed exactly when the list is not empty and the number of new IDs differs from the number of repeats among the old ones |
| KmeScanner.NewDomainDistinct | docker/kme/scanner.py:44-50 | with distinct old IDs that is: exactly when some replying ID is new |
| KmeScanner.NewDomainMeansNewExactly | docker/kme/scanner.py:44-50 | it means that for every new list exactly when the old IDs are distinct |
| KmeScanner.NewcomersHidden | docker/kme/scanner.py:44-50 | as many new IDs as there are repeats among the old ones go unannounced |
| RenderTopo.ScanFlatten | lab/render_topo.py:161-168 | reading a text of pieces back gives the pieces: tokens are recognised exactly |
| RenderTopo.ReplacePieces | lab/render_topo.py:162-164 | one `str.replace` of a token is substitution of that piece |
| RenderTopo.FoldIsExpand | lab/render_topo.py:162-164 | the fold of `str.replace` over the dict is one simultaneous expansion, if no value can form a token of another key |
| RenderTopo.OrderIrrelevant | lab/render_topo.py:161-168 | the order of such a dict does not matter |
| RenderTopo.OrderShowsExactly | lab/render_topo.py:161-168 | and for no other dict: the order is invisible in every clean template exactly when no value, from a `$` on, agrees with the token of another key |
| RenderTopo.NamesComplete | lab/render_topo.py:165-166 | the scan finds every token that occurs anywhere in a text |
| RenderTopo.NoNameNoToken | lab/render_topo.py:165-168 | without reported names no token occurs at any position |
| RenderTopo.FoldMeaning | lab/render_topo.py:161-168 | the outcome is the expansion if every name is known, and otherwise exactly the unknown names |
| RenderTopo.SubstitutePlaceholders | lab/render_topo.py:161-168 | the loop computes this, and whatever the values are a returned text has no token in it |
| RenderTopo.LineLift | lab/render_topo.py:161-168 | a whole template line appears, expanded, in the rendered text |
| RenderTopo.StripExpand | lab/render_topo.py:100-102 | stripping the rendered snippet is rendering the stripped one, exactly when that does not itself end in a newline |
| RenderTopo.TwoStage | lab/render_topo.py:87-102 | rendering any number of snippets and inlining them equals inlining them raw and rendering once, if the contexts agree on shared names |
| RenderTopo.TwoStageStripped | lab/render_topo.py:100-146 | the same for the code's own path: each snippet rendered by the fold and stripped, put into the dict, and the template rendered by the fold; neither way fails |
| LabDict.LabAddresses | lab/topology_contract.py:55-100 | a node's texts denote the network addresses plus the suffix that the table has under its name, over IPv6 exactly when the last 16 bits are zero |
| LabDict.LabGateways | lab/topology_contract.py:55-82 | the gateways' texts denote the addresses after the networks' |
| LabDict.LabAddressesDistinct | lab/topology_contract.py:55-100 | no two nodes share an address text, nor has a node the gateway's |
| LabDict.KeyOfName | lab/render_topo.py:112-133 | a node's key is its name in capitals, with underscores |
| LabDict.DictIsDict | lab/render_topo.py:104-146 | the dict's 38 keys are distinct |
| LabDict.DictHolds | lab/render_topo.py:104-146 | what the dict holds under each key, as a function of the two networks and the pasted files |
| LabDict.PlainValue | lab/render_topo.py:104-146 | for every subnet no value has a `$`, rendered snippets included, and all but the pasted files are one line |
| LabDict.DictRenders | lab/render_topo.py:62-168 | with this dict a clean template renders to its expansion if all its names are keys, and otherwise fails with exactly the other names |
| LabDict.SwitchInOneStage | lab/render_topo.py:62-168 | the lab's own rendering of any template, with all four snippets in the dict, is rendering once, by one dict, the template with the stripped raw snippets of either role pasted in |
| LabDict.ContextAgrees | lab/render_topo.py:75-98 | the snippet contexts and the dict give the names they share the same values |
| RenderValidate.LineRendered | lab/render_topo.py:161-168 | the value of every part of a template line is in the rendering |
| RenderValidate.RenderedContains | lab/render_topo.py:161-168 | a one-line text is in a rendering exactly when it is in the rendering of one template line |
| RenderValidate.LineIsDemand | lab/topology_contract.py:895-970 | with the dict computed from the subnets, each template line's value is the text that the validator computes from the same subnets |
| RenderValidate.PartIsDemand | lab/topology_contract.py:1196-1262 | the same for the placeholder lines of the QuaDRA snippets and their contexts: profile name, both keys, port, peer, KME endpoint, peer SAE and recovery keys |
| RenderValidate.RenderedPasses | lab/topology_contract.py:886-1262 | for any subnets and any other template text, every rendered switch configuration passes each check that demands a text depending on the subnets or on a snippet's context, through both renderings |
| RenderValidate.LegacyAbsentExactly | lab/topology_contract.py:929-930 | the check that no IPv4 RADIUS server is configured passes exactly when no line but the RadSec line renders to one |
| RenderValidate.SnippetRendered | lab/render_topo.py:100-146 | a line of a QuaDRA snippet reaches the switch configuration through both renderings and the stripping |
| RenderValidate.AclRendered | lab/render_topo.py:108-142 | whatever the access list's file says is in the rendered configuration, up to line breaks at its end |
| RenderValidate.ImageRendered | lab/render_topo.py:105 | the image in the topology is the one asked for |
| RenderValidate.AssembledSwitch | configs/ceos/ceos1-both.cfg.in:5-194 | any text made of lines that has the checked ones among them is such a template |
| RenderValidate.AssembledSnippet | configs/ceos/quadra-daemon-master.cfg.in:1-15 | the same for the four snippets |
| QuadraPeers.PeersAreNeighbours | lab/render_topo.py:87-98 | for either agent: the configured peer is the address of the other agent's switch at the far end of the link on the configured port, and the switch sends there over that port |
| QuadraPeers.IdentitiesMatch | configs/ceos/quadra-daemon-slave.cfg.in:10-13 | after any history of the KME certificates each agent expects of its peer the name in the certificate of the peer's bundle |
| QuadraPeers.AgentReachesKme | docker/kme/entrypoint.sh:43-105 | the KME that an agent is pointed at lets the agent's switch through to the configured port |
| Topology.LookupRendered | lab/render_topo.py:161-190 | looking a path of keys up in the rendered lines gives the rendered value |
| Topology.SplitRendered | lab/render_topo.py:161-168 | the lines of a rendering are the rendered lines |
| Topology.ShownExactly | lab/topology_contract.py:595-639 | each rendered text is the one the validator expects, except for an empty subnet argument |
| Topology.SeenExactly | lab/topology_contract.py:595-639 | as a YAML scalar it is the expected string exactly when subnet argument and gateway text are read as strings; every node address, URL and client list always is |
| Topology.TopologyPasses | lab/topology_contract.py:1582-1732 | for any subnets and any other text with placeholders in values only, each check of subnets, gateways, all node addresses, OTHER_KMES and SAE_CLIENT_IPS passes on the rendered topology, read as YAML, exactly when the subnet argument or gateway in question is a text that is read as a string |
| Topology.OrdinarySubnets | lab/topology_contract.py:1582-1732 | for subnets written with their prefix, at most 80 bits for IPv6, every check passes |
| Topology.GatewayNotString | lab/topology_contract.py:79-82 | a gateway that is read as a number and fails its check |
| YamlScalars.NodeIsString | lab/topology_contract.py:85-88 | every management address is read as a string, for any network |
| YamlScalars.AddressIsString | lab/render_topo.py:186-189 | an IPv6 address text is read as a string exactly when it does not end in `::` and is not eight decimal groups of which all but the first are below 60 |
| YamlScalars.DecimalGroupsExactly | lab/render_topo.py:186-189 | those groups by their numbers |
| YamlScalars.NumbersAreTyped | lab/render_topo.py:186-189 | no decimal number is a string, nor is an octal digit behind a zero |
| Topology.BareTopology | lab/quantum-safe.clab.yml:5-202 | the checked lines of the file, in its nesting, are such a template |
| MgmtAddresses.FormatRoundTrip | lab/topology_contract.py:85-88 | the canonical text of an IPv6 address (section 4.2 of RFC 5952) parses back to it (section 2.2 of RFC 4291) |
| MgmtAddresses.Canonical | lab/topology_contract.py:79-88 | the text of an address is the canonical one: `::` for the first of the longest runs of at least two zero groups, and no `::` without such a run (section 4.2 of RFC 5952) |
| MgmtAddresses.HexCanonical | lab/topology_contract.py:79-88 | its groups are in lower case without leading zeros (sections 4.1 and 4.3 of RFC 5952) |
| MgmtAddresses.DecimalCanonical | lab/topology_contract.py:85-88 | a suffix has no leading zeros |
| MgmtAddresses.GapExactly | lab/topology_contract.py:85-88 | a text with `::` denotes an address exactly when at most seven groups of one to four hexadecimal digits stand around it (section 2.2 of RFC 4291) |
| MgmtAddresses.NoGapExactly | lab/topology_contract.py:85-88 | a text without it exactly when it has eight |
| MgmtAddresses.ParseAppend | lab/topology_contract.py:85-88 | what any hexadecimal digits glued onto the text denote, or that they denote nothing |
| MgmtAddresses.AppendAddsExactly | lab/topology_contract.py:85-88 | gluing adds the digits' value exactly when the last group is zero and they fit |
| MgmtAddresses.WideSubnetEndsCompressed | lab/topology_contract.py:85-88 | every subnet with a prefix of at most 64 bits ends in `::` |
| MgmtAddresses.MgmtIpv6Parses | lab/topology_contract.py:85-88 | for prefixes up to 64 and suffixes up to four digits the text is the network plus the digits read as hexadecimal |
| MgmtAddresses.TwoDigitsExactly | lab/topology_contract.py:85-88 | for any network and two-digit suffixes, exactly when its last 16 bits are zero |
| MgmtAddresses.MgmtIpv6Distinct | lab/topology_contract.py:79-100 | the addresses are inside the subnet, not the gateway's, and different for different suffixes |
| MgmtAddresses.NodesIpv6Exactly | lab/topology_contract.py:46-100 | for any network: all nodes of the suffix table are inside the subnet and past its gateway exactly when the last 16 bits are zero and the prefix is at most 121 |
| MgmtAddresses.NodesIpv6 | lab/topology_contract.py:46-100 | then they are pairwise different |
| MgmtAddresses.GatewayIpv6 | lab/topology_contract.py:79-82 | the gateway's text parses to the address after the network's, carries included |
| MgmtAddresses.DottedRoundTrip | lab/topology_contract.py:55-64 | the dotted text of an IPv4 address denotes it |
| MgmtAddresses.NodesIpv4Exactly | lab/topology_contract.py:46-76 | the suffix table fits an IPv4 subnet (inside, no network, gateway or broadcast address) exactly when it is a /26 or wider |
| Routing.BestIsLongest | lab/topology_contract.py:433-501 | the lookup returns a covering route of greatest length, or there is none |
| Routing.BestInZone | lab/topology_contract.py:433-501 | in the lab's tables that is the entry of the address's subnet |
| Routing.NextHops | lab/topology_contract.py:162-168 | every static next hop is the interface address of the neighbour on a declared link |
| Routing.NeighbourExactly | lab/topology_contract.py:162-168 | a neighbour answers for an address on a port exactly when a declared link leads there to its interface with that address |
| Routing.Step | lab/topology_contract.py:433-501 | each switch, for every address, either owns it, puts it on the right link, hands it to the right neighbour or has no route |
| Routing.HostStep | lab/topology_contract.py:412-431 | a host reaches its own subnet directly and hands any other address to its switch |
| Routing.HostSends | lab/topology_contract.py:412-431 | so nothing is lost at a host: what it sends arrives at itself, goes onto its own subnet, or travels from its switch |
| Routing.DottedOctets | lab/topology_contract.py:412-501 | the model's IPv4 addresses are those octets |
| Routing.DocGroups | lab/topology_contract.py:412-501 | and its IPv6 addresses those groups |
| Routing.EveryPacketEnds | lab/topology_contract.py:433-501 | no destination address whatever makes a switch loop: at most three different switches, with the exact path and fate |
| Routing.HopsExactly | lab/topology_contract.py:433-501 | with any hop limit: how far a packet gets before the limit runs out |
| Routing.ReachesSubnet | lab/topology_contract.py:412-501 | any packet from a host to any address of another host's subnet gets there, over the tree path |
| Routing.HostsReachEachOther | lab/topology_contract.py:412-501 | hosts reach each other and answers take the same switches back |
| Routing.FarLinkUnreachable | lab/topology_contract.py:464-481 | the second switch drops packets to the other link subnet |
| KmeFirewall.PeerHostOfUrl | docker/kme/entrypoint.sh:55 | the URL the lab writes for a peer gives its host |
| KmeFirewall.PeerHostExactly | docker/kme/entrypoint.sh:55 | exactly the hosts without `:` and `/` are given back |
| KmeFirewall.PeerHostOfHttp | docker/kme/entrypoint.sh:55 | so does an `http` URL with a plain host |
| KmeFirewall.PeerHostBare | docker/kme/entrypoint.sh:55 | a text without a scheme is taken as it is |
| KmeFirewall.SourcesExactly | docker/kme/entrypoint.sh:45-58 | the sources are the words of SAE_CLIENT_IPS, or else SAE_CLIENT_IP as a whole, and the hosts of the words of OTHER_KMES |
| KmeFirewall.PeerHostEmpty | docker/kme/entrypoint.sh:55 | a scheme without a host stays |
| KmeFirewall.WordsExactly | docker/kme/entrypoint.sh:45-58 | commas and white space separate words, and nothing else does |
| KmeFirewall.BracketedPeer | docker/kme/entrypoint.sh:37-58 | a bracketed IPv6 peer is noted as an IPv4 source that no tool takes, so the script stops before the simulator unless IPv4 cannot be restricted |
| KmeFirewall.VerdictConcat | docker/kme/entrypoint.sh:22-30 | first match on a concatenated chain |
| KmeFirewall.AllowedVerdict | docker/kme/entrypoint.sh:22-30 | the inserted rules accept exactly the covered sources on the port |
| KmeFirewall.StageExactly | docker/kme/entrypoint.sh:60-105 | on any chain, at any moment: the port answers the sources and whom old rules accept explicitly, other ports fare as before |
| KmeFirewall.FreshStageExactly | docker/kme/entrypoint.sh:60-105 | on an empty chain the accepted set after `k` inserts is the allowlist of the first `k` sources, a growing part of the final one |
| KmeFirewall.StartsExactly | docker/kme/entrypoint.sh:22-107 | after any number of starts on a retained chain the port answers exactly the union of the lists of the starts that restricted it |
| KmeFirewall.OtherPortsOpen | docker/kme/entrypoint.sh:22-107 | packets to other ports are always accepted |
| KmeFirewall.Firewall.Note | docker/kme/entrypoint.sh:32-58 | a family is restricted exactly when some source of it is noted |
| KmeFirewall.Firewall.Allow | docker/kme/entrypoint.sh:22-30 | one insert at the front of the right chain |
| KmeFirewall.Firewall.AllowAll | docker/kme/entrypoint.sh:77-105 | the loops insert the sources in order, up to the first one the tool refuses |
| KmeFirewall.Firewall.Configure | docker/kme/entrypoint.sh:32-107 | both chains after the script, also when it stops half-way, and when the simulator is started |
| KmeAllowlist.LabSources | docker/kme/entrypoint.sh:43-58 | for any subnets, the sources that the entrypoint takes from the lab's environment are the SAE clients in both families and the peer over IPv4 |
| KmeAllowlist.LabAllowlist | docker/kme/entrypoint.sh:43-105 | so after the first start the KME's port answers exactly those |
| SiteConfig.File.Sync | scripts/site_config.py:140-175 | the file afterwards, whether it failed, changed and was written |
| SiteConfig.SyncKeepsOutside | scripts/site_config.py:125-129 | with both markers the text outside them is kept up to white space next to them |
| SiteConfig.SyncIdempotentExactly | scripts/site_config.py:125-157 | a second sync changes nothing exactly when the body has no end marker; otherwise the file grows |
| SiteConfig.HashSyncsTwice | scripts/site_config.py:131-132 | a `#` block without markers in the file settles with the second sync and not before |
| SiteConfig.PurposeSplit | scripts/site_config.py:125-137 | where the next sync splits the file: a left-over begin marker catches the split |
| SiteConfig.PurposeSyncsTwice | scripts/site_config.py:134-137 | before the Purpose heading the block settles with the second sync, which keeps the text before it except from a left-over begin marker on |
| SiteConfig.FailsExactly | scripts/site_config.py:125-137 | exactly when a sync raises ValueError |
| SiteConfig.SyncedEnds | scripts/site_config.py:140-175 | a synced file ends in a line break |
| SiteConfig.SyncedPassesCheck | scripts/site_config.py:178-187 | a synced file passes the check |
| SiteConfig.PrintedBlock | scripts/site_config.py:86-122 | a printed block is its two markers around its lines |
| Text.LinesContain | scripts/site_config.py:86-122 | a one-line text is in joined lines exactly when it is in one of them |
| SiteConfig.ReadmeBodyLacks | scripts/site_config.py:86-102 | the README block hides no end marker if the base URL has no `<` |
| SiteConfig.MkdocsBodyLacks | scripts/site_config.py:105-122 | the mkdocs block hides none if no field has a `#` |
| SiteConfig.ConfiguredSyncsSettle | scripts/site_config.py:86-175 | for such a configuration both files settle with one sync once they have their markers |
| SiteConfig.MkdocsReadsBack | scripts/site_config.py:105-122 | each setting is found under its own key of the printed block, whatever the one-line fields |
| SiteConfig.SocialLink | scripts/site_config.py:105-122 | so is the repository link |
| SiteConfig.ReadmeLinks | scripts/site_config.py:86-102 | the README block links the documentation and its three parts |
| SiteConfig.ScriptMarkers | scripts/site_config.py:16-19 | both marker pairs meet what the proofs ask of markers |
| Text.LowerExactly | lab/ceos_json.py:61-67 | texts are equal in lower case exactly when they differ in nothing but case |
| RadsecPki.MarkerInjective | lab/gen_pki.py:44 | comma-joined address lists are equal only for equal lists |
| RadsecPki.CachedExactly | lab/gen_pki.py:44-46 | the cache test succeeds exactly when the cached certificate carries the addresses asked for |
| RadsecPki.SansExactly | lab/gen_pki.py:332-338 | a switch's addresses are exactly those that the two dicts list for it and that are not empty, IPv4 first |
| RadsecPki.HostsExactly | lab/gen_pki.py:187-189 | which switches a run is for: those it is given, else those with an IPv4 address, else the lab's two |
| RadsecPki.EnsureServerKeeps | lab/gen_pki.py:39-93 | afterwards the work directory has a certificate with these addresses, and every other file as before |
| RadsecPki.RunSettles | lab/gen_pki.py:167-361 | a run leaves everything its arguments ask for, and the invariant |
| RadsecPki.SettledRunIsIdle | lab/gen_pki.py:167-361 | a run over a directory that has what is asked for generates no key and changes no file |
| RadsecPki.ExportsWhatWasAsked | lab/gen_pki.py:187-361 | after any runs from an empty directory the exported certificates of the RADIUS and syslog servers have their names and exactly the last run's addresses, both of each switch asked for exactly the addresses the two dicts list for it, its client certificate is one, and all that is exported pairs with its key and is signed by the exported CA |
| RadsecPki.NoSharedKeys | lab/gen_pki.py:187-361 | after any runs no two certificates share a key, and none has the CA's |
| RadsecPki.RepeatIssuesNothing | lab/gen_pki.py:187-361 | repeating a run changes nothing |
| RadsecPki.ClientCnIsFirst | lab/gen_pki.py:268-273 | a client's certificate keeps the name of the first run that listed it |
| RadsecPki.ClientCnExactly | lab/gen_pki.py:268-330 | the exported name is the one asked for exactly when the first run asked for the same |
| RadsecPki.LostCaLeavesStale | lab/gen_pki.py:187-361 | a whole run after ca.crt was deleted: of what it exports, a server certificate is not signed by the exported CA exactly when the cached one has the addresses asked for, a client certificate exactly when one is cached |
| RadsecPki.LostCaRepeat | lab/gen_pki.py:187-361 | after any history: repeating the last run's arguments then exports nothing that fits the CA |
| RadsecPki.MarkerExactly | lab/gen_pki.py:44-46 | any two lists share a marker exactly when their entries split into the same texts at commas |
| RadsecPki.PkiDir.ServerCert | lab/gen_pki.py:39-93 | the cache test and reissue, on the directory |
| RadsecPki.PkiDir.DeployServer | lab/gen_pki.py:39-164 | the same with the copying |
| RadsecPki.PkiDir.Generate | lab/gen_pki.py:167-361 | the whole script on the directory |
| KmePki.RunLeaf | lab/gen_kme_pki.py:184-241 | each leaf is either the cached SAE files untouched or a fresh pair for its name and address, signed by the work CA |
| KmePki.CompletesExactly | lab/gen_kme_pki.py:184-255 | on any directory, exactly when a run completes |
| KmePki.ExportsExactly | lab/gen_kme_pki.py:184-264 | on any directory: the exported CA has Certificate Sign, and a leaf is signed by it, and pairs, exactly when it was made anew or the cached one was and did; the bundles hold the same |
| KmePki.RunSound | lab/gen_kme_pki.py:184-255 | from a consistent directory a run completes and all it exports is sound |
| KmePki.HistorySound | lab/gen_kme_pki.py:101-264 | over any sequence of runs with the CA replaced by ones without Certificate Sign in between, every run completes and everything exported is signed by the exported CA and pairs |
| KmePki.HistoryIssued | lab/gen_kme_pki.py:101-264 | after any history every key file holds a key that was handed out |
| KmePki.SaeStable | lab/gen_kme_pki.py:113-116 | after any history, in the next run an SAE keeps its key exactly when the CA is kept, and a KME gets a new one |
| KmePki.CaExactly | lab/gen_kme_pki.py:184-205 | after any history the next run exports the CA it finds if that has Certificate Sign, and otherwise one with a key that no file of the directory was about |
| KmePki.NoSharedKeys | lab/gen_kme_pki.py:184-255 | after any history with a usable CA no two leaves share a key, and none has the CA's |
| KmePki.CapableCaGoesUnnoticed | lab/gen_kme_pki.py:25-35 | a replacement CA with Certificate Sign leaves exported SAE certificates that it did not sign |
| KmePki.KmeDir.PrepareCa | lab/gen_kme_pki.py:184-205 | the CA check, the emptying of the directory and the new CA |
| KmePki.KmeDir.Generate | lab/gen_kme_pki.py:166-255 | the whole script on the directory |
| SakProfiles.IdExactly | lab/test_macsec_qkd.py:40 | on any text the identifier pattern matches at the front exactly `identifier`, white space, and a whole word |
| SakProfiles.AnExactly | lab/test_macsec_qkd.py:41 | and the key pattern exactly `an`, white space, digits, white space, `key`, and what the next two say |
| SakProfiles.KeyExactly | lab/test_macsec_qkd.py:41 | a digit behind white space is the key's type exactly when white space and something more follow it |
| SakProfiles.RestExactly | lab/test_macsec_qkd.py:41 | the rest is that of the line after white space; of white space alone, its last character that is no line break |
| SakProfiles.IdLeftmost | lab/test_macsec_qkd.py:164 | the search for the identifier takes the leftmost match |
| SakProfiles.AnLeftmost | lab/test_macsec_qkd.py:165 | so does the search for the key |
| SakProfiles.PlainKeyExactly | lab/test_macsec_qkd.py:41 | a plain key is read back as it is unless it is one digit followed by white space that can stand for a key |
| SakProfiles.FieldsRead | lab/test_macsec_qkd.py:158-175 | a printed channel is read back exactly, except for such a key |
| SakProfiles.BlockFound | lab/test_macsec_qkd.py:147-155 | among any profiles with prefix-free names the block is exactly the text after the name |
| SakProfiles.ProfileConfigBlock | lab/test_macsec_qkd.py:147-155 | the loop that narrows the block |
| SakProfiles.ParsePrinted | lab/test_macsec_qkd.py:147-188 | printing any profiles, followed by anything that starts with a stop word, and parsing by name succeeds, and each channel comes back exactly when its key is not swallowed |
| SakProfiles.RoundTrip | lab/test_macsec_qkd.py:147-188 | with keys of two characters or more the profile comes back |
| SakProfiles.RefusedExactly | lab/test_macsec_qkd.py:147-188 | when a configuration is refused, and with which error |
| SakProfiles.PairAcceptedExactly | lab/test_macsec_qkd.py:191-216 | a printed master and slave pass both assertions exactly when the slave is the master's rx/tx mirror |
| SakProfiles.OneDigitKeyLost | lab/test_macsec_qkd.py:41 | whatever is printed around it, a profile with a plain one-digit rx key is parsed as a profile with another rx channel |
| SakTemplates.SnippetPrinted | configs/ceos/quadra-macsec-master.cfg.in:1-11 | a rendered MACsec snippet is, character for character, the printed profile |
| SakTemplates.SnippetsMirror | configs/ceos/quadra-macsec-slave.cfg.in:1-11 | the two rendered snippets parse to profiles that are each other's rx/tx mirror and pass both checks |
| QuadraStatus.ParseDaemonQuadraStatus | lab/test_macsec_qkd.py:111-136 | the loop computes the fold over classified lines |
| QuadraStatus.CurrentKey | lab/test_macsec_qkd.py:118-135 | there is a current key exactly when a field line was read with no blank line since, and it is the last one's |
| QuadraStatus.ClosedByBlank | lab/test_macsec_qkd.py:118-122 | after a blank line nothing is read up to the next field |
| QuadraStatus.IdleLine | lab/test_macsec_qkd.py:123-136 | rules, headings and other lines might as well not be there |
| QuadraStatus.WholeText | lab/test_macsec_qkd.py:113-117 | without the word that opens the section the whole text is read |
| QuadraStatus.FieldExactly | lab/test_macsec_qkd.py:36-39 | on any line the field pattern matches exactly two or more key characters from a letter on, the first two blanks after them, and the rest |
| QuadraStatus.RowIsField | lab/test_macsec_qkd.py:36-39 | a printed row is taken for a field with its key and value |
| QuadraStatus.StatusOfTable | lab/test_macsec_qkd.py:111-136 | printing any table and parsing it: rows that look like the heading are dropped and their wrapped lines go to the last row kept; every other key has its value, wrapped parts rejoined by single spaces |
| QuadraStatus.StatusRoundTrip | lab/test_macsec_qkd.py:111-136 | a table comes back if no row looks like the heading, and with distinct keys only then |
| QuadraStatus.DataRateLost | lab/test_macsec_qkd.py:127-128 | a row that looks like the heading |
| SyslogSupervisor.WaitForTlsStreak | docker/syslog/entrypoint.sh:46-68 | ready exactly when at some round the trailing run of successes first reaches the streak with the process alive throughout; otherwise the waiting ends at the first round past the deadline or with the process gone |
| SyslogSupervisor.TrailingRun | docker/syslog/entrypoint.sh:48-63 | the streak is the length of the longest run of successes the rounds end in |
| SyslogSupervisor.FailsCheckExactly | docker/syslog/entrypoint.sh:89-93 | the watching ends with a failed check exactly when some check fails and all before it found the process alive and healthy |
| SyslogSupervisor.Supervisor.WatchTicks | docker/syslog/entrypoint.sh:89-93 | the loop that makes these checks |
| SyslogSupervisor.WatchVouched | docker/syslog/entrypoint.sh:88-101 | each "recovered" follows a full streak of probes of the process started last |
| SyslogSupervisor.ScriptVouched | docker/syslog/entrypoint.sh:82-113 | in every run each "ready" and "recovered" does |
| SyslogSupervisor.ScriptShows | docker/syslog/entrypoint.sh:82-113 | in every run the processes are numbered in the order of the starts, and each is seen in exactly the rounds up to the one that settles its waiting |
| SyslogSupervisor.ScriptEnds | docker/syslog/entrypoint.sh:82-113 | failed startups are numbered from one, as many as fail before the first success and at most MAX_ATTEMPTS; and the starts with which the listener becomes ready |
| SyslogSupervisor.WatchEnds | docker/syslog/entrypoint.sh:88-104 | what ends a ready listener, by its starts: the process ends between checks, a recovery fails, or the network is gone; only the last gives a status other than 0, and only in the first is every restart answered by a recovery |
| SyslogSupervisor.ExitExactly | docker/syslog/entrypoint.sh:82-113 | the status is 0 exactly when some attempt succeeds and no restart after it finds the network gone; a failed recovery is exactly the case of status 0 with an unanswered restart |
| SyslogSupervisor.FailedRecoveryExitsZero | docker/syslog/entrypoint.sh:98-104 | a run in which a recovery fails and the status is 0 |
| SyslogSupervisor.Supervisor.Run | docker/syslog/entrypoint.sh:82-113 | the attempt loop, step by step |
| SyslogSupervisor.Supervisor.WatchLoop | docker/syslog/entrypoint.sh:88-103 | the watch and restart loop |
| CeosJson.FindIsFirst | lab/ceos_json.py:61-77 | the search returns the first topmost match that is not null |
| CeosJson.FindByIndex | lab/ceos_json.py:61-77 | by index: a dict's first matching entry is what is found, even null; without one, and in a list, the first result below that is not null |
| CeosJson.FirstByIndex | lab/ceos_json.py:68-76 | that is the first from the left |
| CeosJson.ContainsExactly | lab/ceos_json.py:26-46 | the text search looks at exactly the keys and scalars that stand anywhere in the tree |
| CeosJson.FoundBelow | lab/ceos_json.py:61-77 | what is found stands in the tree under a key that matches, all its values included |
| CeosJson.FoundIsContained | lab/ceos_json.py:41-46 | a text or number that is found is found by the text search too, and the key in any case |
| CeosJson.PeerListsExactly | lab/ceos_json.py:180-189 | exactly the lists that stand under a matching key anywhere in the tree |
| CeosJson.LivePeersExactly | lab/ceos_json.py:192-196 | for every tree: live peers exactly when some such list is not empty, or some text introduces a list of live peers and none introduces an empty one |

## Left out

Assumptions about what lies outside the modelled files:

- KME handlers take their KME's lock, release it and only read the list; a status reply of a KME is that KME's own record with KME_ID and SAE_ID. The simulator itself is not part of this model.
- A fetch that raises an exception the scanner does not catch, which would end its thread.
- Which addresses an iptables source covers is a parameter; a source that iptables refuses ends the script (`set -e`), and the chain of the first start is empty in `StartsExactly`.
- openssl is a step that makes a fresh key and a certificate of what it was given; certificate text, validity dates, DNS names and serial numbers are not modelled.
- A CA that is put into a KME work directory from outside has a key that openssl handed out.
- Runs of the certificate scripts that crash half-way.
- The clock, `kill -0` and the health check of the supervisor are given as lists; signals, and the reaping of processes, are not modelled; `start_syslog` returns as soon as the process runs.
- The management VRF: its routes are in another table and never meet the data plane's.

Not modelled, or modelled for less than the code accepts:

- RenderTopo.FoldIsExpand: templates in which every `$` starts a token, as in the repository, and values that form no token of another key; `OrderShowsExactly` says that other values make the order show.
- RenderValidate.RenderedPasses: the validator's other checks are searches for fixed text.
- Topology.TopologyPasses: of YAML, block mappings indented by two, scalars on one line and double quotes. Reading the file is reading the rendered text: PyYAML reads back what it dumped, and the QuaDRA binds that are added in between are under other paths.
- YamlScalars.IsString: subnet arguments are made of what IP networks are written with, so of the implicit types of YAML 1.1 only null, integers and floats can arise, without signs, exponents or hexadecimal.
- LabDict.DictHolds: `ip_network` is a parameter: each subnet text comes with the network that it denotes, and the additions to the IPv4 network do not overflow.
- The RADIUS client file: `validate_radius_configs` finds each client's block with a regular expression and then its address in it; not modelled.
- MgmtAddresses.ParseAppend: embedded IPv4 text and zone indices in IPv6 addresses do not occur.
- RadsecPki.ExportsWhatWasAsked: address tuples that are not empty and have no commas or white space; openssl refuses empty ones and `MarkerExactly` shows why commas matter.
- KmePki.KmeDir.Generate: of a run that fails only the failure is stated, not which files it had written.
- SiteConfig.ConfiguredSyncsSettle: the reading of site.yaml is not modelled, and a missing README or mkdocs file is an error before anything modelled here.
- SakProfiles.ParsePrinted: digits and letters are ASCII, names, identifiers and keys are single words, and a stop word follows the last profile directly.
- QuadraStatus.StatusRoundTrip: the only line break is `\n`, and letters are ASCII.
- CeosJson.FindIsFirst: a number stands for its printed form; parsing JSON text is not modelled.
- Live checks, the drivers of docker, gRPC and SSH, report formatting, the Makefile and the images: straight-line probes and plumbing.
