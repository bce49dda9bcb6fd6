# Data-centre topology experiments, modelled in Dafny

The repository runs network measurements on emulated data-centre topologies.
It builds a topology for the Mininet emulator, pairs hosts into servers and
clients, and then starts ping and iperf3 processes between the pairs. This
project models the deterministic parts of that and proves properties of them:

- **Fat tree** (`fattree.py`, modules `FatTree` and `FatTreePairs`).
  - `FatTreeTopo` builds a k-ary fat tree: `(k/2)²` core switches, `k²/2`
    aggregation switches, `k²/2` edge switches and `k³/4` hosts, named by
    the prefix rule "100"/"10" plus the number. It then adds its three link
    layers.
  - `generateUniformClientServerPairs` draws random pairs from all hosts.
  - `generateServerClientPairs` pairs hosts inside each pod.
  - The measurement stages pair client `i` with server `i` (same pod) or with
    server `len(clients)-1-i` (different pods). The different-pod stages use
    staggered durations.
- **Jellyfish** (`jellyfish.py`, module `Jellyfish`): the random pairing of
  host names, and the staggered UDP stage.
- **Hypercube** (`examples/hyper.py`, modules `Bits` and `Hyper`).
  - `difer` counts the differing low bits of two numbers.
  - The `Hypercube` topology has `2**a` switches. Each switch has one host,
    and two switches are linked exactly when their numbers differ in one bit.
  - `MyTopo` is a four-switch ring.
  - `simpleTest` pairs up the hosts with a `while seq:` loop and starts one
    iperf3 client per pair.
- **ssh test** (`examples/testNetSRV.py`, module `TestNetSRV`): the same
  pairing over `range(0, 2**a)`, read out as index lists.

Shared pieces:

- `Topology`: the emulator's `Topo`, as a class whose node and link lists
  grow in call order.
- `Pairing`: the pool-drawing step, the matching predicates, and reading a
  dict out as key and value lists.
- `Stage`: the launch records of a measurement stage.
- `Decimal`: `str` of a natural number.
- `Arith`: the index arithmetic.

Python 2 integer division (`/` and `//` on non-negative ints) is Dafny's `/`
here.

Each `random.choice` becomes a nondeterministic choice (`:|`) from the pool,
and every guarantee holds whichever members are chosen. The inner
`while client == server` retry loop ends with probability 1 when a second
pool element exists; only its terminating runs are modelled, each of which
yields a member different from the first. When the pool holds a single
element, that loop never ends, and the model returns a `RetriesForever` or
`Stuck` outcome instead. When the pool is empty, `random.choice` raises
IndexError, and the model returns the `PoolExhausted` outcome.

Python dicts are read out by `keys()` and `values()`. Their order is left
open: any order of the keys is allowed, with `values()` in the matching order.

## Model

| member | source | states |
|---|---|---|
| FatTree.LayerCounts | fattree.py:81-84 | for even k, the aggregation and edge layers each have `k·(k/2)` switches, hosts number `(k/2)` per edge switch, and each pod holds as many hosts as there are core switches |
| FatTree.NodeNameInjective | fattree.py:104-132 | prefix-and-number names are equal exactly when layer and number are equal, so no two nodes share a name |
| FatTree.NodeNameFixedWidth | fattree.py:104-108 | numbers 1..99 all give four-character names |
| FatTree.NodeNameThirdChar | fattree.py:105-107 | the third character of a name is '0' exactly when the number is below 10, i.e. the longer prefix is used for one-digit numbers |
| FatTree.FatTreeTopo.constructor | fattree.py:76-98 | the derived layer counts, the four layer lists holding their names in order, the same switches (core, agg, edge) and hosts registered with the emulator, and exactly the fat-tree links |
| FatTree.FatTreeTopo.CreateCoreLayerSwitch | fattree.py:102-108 | appends the core names for numbers 1..NUMBER to the core list and to the emulator's switches, nothing else |
| FatTree.FatTreeTopo.CreateAggLayerSwitch | fattree.py:110-116 | the same for the aggregation layer |
| FatTree.FatTreeTopo.CreateEdgeLayerSwitch | fattree.py:118-124 | the same for the edge layer |
| FatTree.FatTreeTopo.CreateHost | fattree.py:126-132 | the same for the hosts, registered as emulator hosts |
| FatTree.FatTreeTopo.CreateLinks | fattree.py:134-156 | appends the core-agg, agg-edge and edge-host links, in that order |
| FatTree.FatTreeTopo.LinkCoreToAgg | fattree.py:140-145 | appends, for each aggregation switch in order, its `k/2` uplinks to the core block selected by the wrapping `podOffset` |
| FatTree.FatTreeTopo.LinkUplinks | fattree.py:141-142 | appends the uplinks of one aggregation switch to core switches `podOffset·k/2 + x` |
| FatTree.FatTreeTopo.LinkAggToEdge | fattree.py:148-151 | appends the complete bipartite agg-edge links of every pod, pod by pod |
| FatTree.FatTreeTopo.LinkPodStep | fattree.py:148-151 | one round of the pod loop extends the links by that pod's block |
| FatTree.FatTreeTopo.LinkPod | fattree.py:149-151 | appends the agg-edge links of one pod |
| FatTree.FatTreeTopo.LinkPodMember | fattree.py:150-151 | appends the links from one aggregation switch to every edge switch of its pod |
| FatTree.FatTreeTopo.LinkEdgeToHosts | fattree.py:154-156 | appends, for each edge switch, the links to its `k/2` hosts |
| FatTree.FatTreeTopo.LinkHostsOf | fattree.py:155-156 | appends the links from edge switch `x` to hosts `x·k/2 + port` |
| FatTree.FatTreeTopo.Hosts | fattree.py:158-159 | returns the registered host list: `k³/4` names, host `i` named by number `i+1` |
| FatTree.CoreAggLinked | fattree.py:140-145 | aggregation switch `i` is linked to core switch `c` if and only if both exist and `c` lies in core block `i mod (k/2)` |
| FatTree.CoreUplinkPerPod | fattree.py:140-145 | every core switch is linked to exactly one aggregation switch in each pod: the one at position `c div (k/2)` |
| FatTree.CoreAggCount | fattree.py:140-142 | there are `AggCount(k)·(k/2)` uplinks in total |
| FatTree.AggUplinkDegree | fattree.py:140-145 | for even k, every aggregation switch has exactly `k/2` uplinks to core switches |
| FatTree.UplinkAggsAre | fattree.py:140-145 | the aggregation switches linked to core switch `c` are exactly those whose index is `c div (k/2)` modulo `k/2` |
| FatTree.CoreDownDegree | fattree.py:140-145 | for even k, every core switch is linked to exactly `k` aggregation switches, one per pod |
| FatTree.AggEdgeLinked | fattree.py:148-151 | an aggregation switch and an edge switch are linked if and only if both exist and lie in the same pod |
| FatTree.PodEdgesAre | fattree.py:148-151 | the edge switches linked to aggregation switch `a` are exactly the `k/2` indices of its pod's block |
| FatTree.AggDownDegree | fattree.py:148-151 | for even k, every aggregation switch is linked to exactly `k/2` edge switches |
| FatTree.PodAggsAre | fattree.py:148-151 | the aggregation switches linked to edge switch `e` are exactly the `k/2` indices of its pod's block |
| FatTree.EdgeUpDegree | fattree.py:148-151 | for even k, every edge switch is linked to exactly `k/2` aggregation switches |
| FatTree.AggEdgeCount | fattree.py:148-151 | there are `k·(k/2)²` agg-edge links |
| FatTree.EdgeHostLinked | fattree.py:154-156 | edge switch `x` is linked to host `g` if and only if `g` exists and `g div (k/2) == x` |
| FatTree.EdgeHostDegree | fattree.py:154-156 | for even k, every edge switch is linked to exactly `k/2` hosts |
| FatTree.EdgeHostCount | fattree.py:154-156 | there is one edge-host link per host |
| FatTree.SwitchLinkAvoidsHosts | fattree.py:140-151 | no core-agg or agg-edge link touches a host |
| FatTree.HostAttachment | fattree.py:134-156 | host `g`'s link sits at a known position of the whole link list and joins it to edge switch `g div (k/2)` |
| FatTree.HostAttachedOnce | fattree.py:134-156 | a link touches host `g` if and only if it is that one link: each host has exactly one link |
| FatTree.FatTreeLinksNoDups | fattree.py:134-156 | for even k, no link is added twice: the three stages repeat no link and share none |
| FatTree.LinkShaped | fattree.py:140-156 | every link runs aggregation to core or aggregation to edge with 1000 Mbit/s and 0.1 ms, or edge to host with 1000 Mbit/s and no delay |
| FatTree.FatTreeLinksDistinctEnds | fattree.py:134-156 | for even k, no two links join the same two nodes, in either order |
| Decimal.StrInjective | fattree.py:104-132 | `str` of naturals is injective, which the naming relies on |
| Decimal.ValueOfStr | fattree.py:108 | reading back the decimal digits of `str(x)` gives `x` |
| FatTreePairs.GenerateUniformClientServerPairs | fattree.py:161-182 | returns pairs if and only if `2·numberOfPairs <= hostCount`; otherwise IndexError (even host count) or an endless retry (odd count). The pairs are exactly `numberOfPairs` (0 when negative), all hosts are in range, no host is used twice, and when `2·numberOfPairs == hostCount` every host is used |
| FatTreePairs.PairPodSubset | fattree.py:192-205 | the dict pairs distinct hosts of `[first, last)`, none used twice, with `(last-first) div 2` entries; when the range has even length every host is a key or a value |
| FatTreePairs.PodRound | fattree.py:195-205 | one round draws distinct pool members, sets the new key `client` to `server`, removes `server` then `client` from the pool, and keeps the pool and the dict disjoint and in range |
| FatTreePairs.PairPod | fattree.py:190-208 | pod `p`'s key and value lists form a matching inside pod `p`, with half the pod's hosts (rounded down) as entries, and cover the pod when its size is even |
| FatTreePairs.GenerateServerClientPairs | fattree.py:184-219 | the result is a matching whose hosts all lie below the last pod. For even k, pod `q` contributes entries `q·P .. q·P+P-1` (with `P = ⌊k²/8⌋`), all inside pod `q`. For `k` divisible by four every host is used |
| FatTreePairs.EvenPodStart | fattree.py:190-191 | for even k, pod `p` starts at `p·k²/4` and holds `k²/4` hosts |
| FatTreePairs.PairsFitHosts | fattree.py:190-191 | for even k, the last pod ends exactly at the host count `k³/4`, so the pod pairs index only existing hosts |
| FatTreePairs.PodsDisjoint | fattree.py:190-192 | no host index lies in two pods |
| FatTreePairs.ReversedPos | fattree.py:338-344 | position `len(clients)-1-i` of pair `j` in pod `p` is pair `P-1-j` of pod `k-1-p` |
| FatTreePairs.DifferentPodPairsCrossPods | fattree.py:338-344 | in the different-pod stages (TCP 338-344, UDP 391-396), after `generateServerClientPairs`, for even k, client `i` of pod `p` is paired with a server of pod `k-1-p`, and that server is not in pod `p` |
| FatTreePairs.SamePodStage | fattree.py:314-375 | in the TCP (314-319) and UDP (371-375) same-pod stages, client `index` is launched towards server `index`, for `IPERF_TEST_DURATION` |
| FatTreePairs.DifferentPodStage | fattree.py:338-396 | in the TCP (338-344) and UDP (391-396) different-pod stages, client `index` is launched towards server `len(clients)-1-index` for `IPERF_TEST_DURATION + len(clients) - index` seconds. Durations lie in `base+1 .. base+len(clients)`, strictly decrease with the index, and `index + duration` is the same for all clients, so clients started one second apart stop together |
| FatTreePairs.PodTestStages | fattree.py:409-431 | on a built fat tree, `generateServerClientPairs` followed by both stages of a test: every pair index lies inside `hostList`, client `i` measures towards server `i` (same pod) and towards server `len(clients)-1-i` with the staggered duration (different pods), and in no launch is a host paired with itself |
| Stage.StaggeredDuration | fattree.py:339 | the staggered duration lies between `base + 1` and `base + count` |
| Jellyfish.GenerateServerClientPairs | jellyfish.py:97-118 | the pairs form a matching of host names with `len(hosts) div 2` entries, drawn from the hosts without reuse. For an even number of hosts every host is used |
| Jellyfish.UdpStage | jellyfish.py:233-241 | client `index` is launched towards server `index` for `IPERF_TEST_DURATION + len(clients) - index`; durations strictly decrease, and `index + duration` is constant |
| Hyper.Difer | examples/hyper.py:28-35 | the loop's count is the number of bit positions below `a` where `x` and `y` differ, and lies in `0..a`; the identical copy at examples/testNetSRV.py:7-14 is the same method |
| Bits.HammingSelf | examples/hyper.py:28-35 | a number differs from itself in no bit |
| Bits.HammingSymmetric | examples/hyper.py:28-35 | the count is symmetric in `x` and `y` |
| Bits.HammingZero | examples/hyper.py:28-35 | the count is 0 if and only if `x` and `y` agree in every bit below `a` |
| Bits.BitsDetermine | examples/hyper.py:28-35 | two numbers below `2**a` that agree in every bit below `a` are equal, so a count of 0 means the same switch |
| Bits.HammingFlip | examples/hyper.py:28-35 | flipping bit `b` changes the count by exactly one when `b < a`, and not at all otherwise |
| Bits.NeighbourIsFlip | examples/hyper.py:118 | for `x, y < 2**a`, `difer(x, y, a) == 1` if and only if `y` is `x` with one bit below `a` flipped |
| Bits.Degree | examples/hyper.py:116-119 | each `x < 2**a` has exactly `a` numbers below `2**a` at distance one |
| Hyper.NodeNameInjective | examples/hyper.py:106-107 | `'s%d'`/`'h%d'` names are equal exactly when prefix and number are equal |
| Hyper.MyTopo.constructor | examples/hyper.py:55-79 | registers hosts h1-h4 and switches s1-s4, in that order, and the eight links in call order |
| Hyper.MyTopoHostAttached | examples/hyper.py:62-79 | host `hi` has exactly one link, and that link reaches switch `si` |
| Hyper.MyTopoRing | examples/hyper.py:72-79 | the switch-to-switch links, unordered, are exactly the ring s1-s2-s3-s4-s1 |
| Hyper.Hypercube.constructor | examples/hyper.py:94-119 | registers switches `s0..s(n-1)` and hosts `h0..h(n-1)` with `n = 2**a`, one host link per `i` in order, then the switch links of the nested loop |
| Hyper.Hypercube.LinkSwitchRow | examples/hyper.py:117-119 | one round of the outer loop appends the links from `s_i` to every later `s_j` with `difer(i, j, a) == 1` |
| Hyper.HostAttachment | examples/hyper.py:112-113 | link `i` joins `s_i` to `h_i`, and no other link touches `h_i` |
| Hyper.SwitchLinked | examples/hyper.py:116-119 | `s_x`-`s_y` is a switch link if and only if `x < y < 2**a` and they differ in exactly one bit, so there are no self-loops |
| Hyper.SwitchLinkShape | examples/hyper.py:116-119 | every switch link has that form |
| Hyper.SwitchDegree | examples/hyper.py:116-119 | the switches linked to `s_x`, in either direction, are exactly its one-bit neighbours, and there are `a` of them |
| Hyper.SwitchLinksCount | examples/hyper.py:116-119 | there are `a·2**(a-1)` switch links (twice their number is `a·2**a`) |
| Hyper.SwitchLinksNoDups | examples/hyper.py:116-119 | no switch link is added twice |
| Hyper.HypercubeLinksNoDups | examples/hyper.py:112-119 | no link of the hypercube is added twice: the host links repeat none and share none with the switch links |
| Hyper.PairRange | examples/hyper.py:137-147 | for odd `n` the retry loop never ends. Otherwise the dict pairs distinct indices in `0..n-1`, none used twice, with `n/2` entries, and every index is a key or a value |
| Hyper.RangeRound | examples/hyper.py:141-147 | one round draws distinct pool members `x` and `y`, adds the new key `x` with value `y`, removes `x` then `y` from the pool, and keeps the pool and the dict disjoint and in range |
| Hyper.SimpleTest | examples/hyper.py:126-175 | stuck exactly when `a == 0`. Otherwise clients (keys) and servers (values) are `2**(a-1)` distinct host names, which cover all hosts, with no host paired with itself or used twice. The iperf3 loop launches client `i` towards server `i` for 10 seconds, for every `i < n/2` |
| Hyper.NamedPairs | examples/hyper.py:159-160 | naming the keys and values `'h%d'` keeps them a covering matching of host names |
| Hyper.IperfClients | examples/hyper.py:174-175 | launches client `i` towards server `i`, with `-t 10`, for `i < count` |
| TestNetSRV.Test | examples/testNetSRV.py:18-36 | stuck exactly when `a == 0`. Otherwise both lists have `2**(a-1) == n/2` entries, so every `servers[i]`/`clients[i]` with `i < n/2` exists. No index is paired with itself or used twice, all are below `2**a`, and all are used |
| Pairing.DrawnFrom | fattree.py:167-177 | drawing pairs from a duplicate-free pool yields a matching of pool members, and an emptied pool means every member was used |
| Pairing.DrawRound | jellyfish.py:103-113 | one round draws distinct pool members `server` and `client`, appends `client` to the clients and `server` to the servers, removes `client` then `server` from the pool, and keeps the pool duplicate-free with pool and pairs together equal to the starting endpoints |
| Pairing.PairDictLists | fattree.py:207-208 | reading a pair dict out as keys (clients) and values (servers) gives a matching; the clients are exactly the keys and the servers exactly the values |

## Left out

- Process orchestration: `pmonitor`, `popen`, the per-stage deadlines and
  signals, `time.sleep`, and the output files. These are I/O. Only the launch
  plan of each stage (who measures towards whom, and for how long) is
  modelled. fattree.py:229 sends `SIGINT` without importing it, so that
  timeout path would raise NameError. That path is outside the model.
- The ping stages: fattree.py:249-253 and 271-275, and the jellyfish ping
  loops. They launch the same pairs as the iperf stages but with no duration.
  Their pairing is covered by `SamePodStage`'s indexing and by
  `DifferentPodPairsCrossPods`.
- Mininet itself, `JellyfishTopo`, `OVSBridgeSTP`, `dumpNodeConnections`,
  `net.get`/`getNodeByName` and the `topos` dicts. These are foreign code the
  model cannot see. A host object is represented by its name.
- The ssh/`ifconfig` scraping of IP addresses and the command strings in
  examples/testNetSRV.py:35-98. These call external processes. The model
  stops at the index lists and proves the `n/2` accesses in bounds.
- Argument parsing, `FILE_PREFIX`, logging, `print`, root checks and clean-up.
- The probability distribution of `random.choice`. Every possible choice is
  covered instead.
- Floating-point values: the `cpu=.1/n` share in hyper.py and the `%.1f`
  bandwidths in jellyfish.py.
- The globals `a` (hyper.py:195, testNetSRV.py:101), `kNUMBER` and
  `IPERF_TEST_DURATION` are parameters. `createLinks` reads the global
  `kNUMBER` rather than `self.kNUMBER`. The two are equal in the program's
  only construction (fattree.py:412), so the model uses the instance's `k`.
- `FatTreeTopo`'s four lists are class attributes in the source, shared by
  all instances. The program builds one instance, so the model keeps them as
  per-instance fields and does not model the sharing.
- FatTree.FatTreeTopo.constructor: requires `k` even and at least 2. The
  source states "k must be even!". For odd `k >= 3` the agg-edge loop indexes
  past the aggregation list, and `k == 0` is treated as unset by the command
  line. Negative `k` is also excluded: `if args.k:` lets it through, and the
  source then builds one core, two aggregation and two edge switches, no
  hosts and no links, without an error.
- Jellyfish.GenerateServerClientPairs: requires distinct host names, which the
  emulator enforces. The removal of drawn hosts from the list returned by
  `topo.hosts()` is modelled on a copy, so any aliasing with the emulator's
  own list is not captured.
