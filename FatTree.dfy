/** The fat-tree builder: from the pod count `k` it derives the switch and host
    count of each layer, names every node after its layer, and wires core to
    aggregation, aggregation to edge inside each pod, and edge to hosts. */
module FatTree {
  import opened Arith
  import opened Topology
  import Pairing
  import Decimal

  /** The digit every node name of a layer starts with. */
  const CoreLayer: char := '1'
  const AggLayer: char := '2'
  const EdgeLayer: char := '3'
  const HostLayer: char := '4'

  /** The name of node `x` (counted from 1) of a layer: the layer digit, then
      "00" and `str(x)` below 10, or "0" and `str(x)` from 10 on. */
  function NodeName(layer: char, x: nat): string
  {
    if x >= 10 then [layer, '0'] + Decimal.Str(x) else [layer, '0', '0'] + Decimal.Str(x)
  }

  /** The names a layer builder gives to its `count` nodes. */
  function LayerNames(layer: char, count: nat): seq<string>
  {
    seq(count, i requires 0 <= i => NodeName(layer, i + 1))
  }

  /** Up to 99 nodes per layer, every name has four characters. */
  lemma NodeNameFixedWidth(layer: char, x: nat)
    requires 1 <= x <= 99
    ensures |NodeName(layer, x)| == 4
  {
    if x >= 10 {
      Decimal.StrTwoDigits(x);
    }
  }

  /** Names are unique across the whole topology: two nodes share a name only
      if they are the same node of the same layer. This holds for every node
      number, not only below 100. */
  lemma NodeNameInjective(l1: char, x1: nat, l2: char, x2: nat)
    requires 1 <= x1 && 1 <= x2
    ensures NodeName(l1, x1) == NodeName(l2, x2) <==> l1 == l2 && x1 == x2
  {
    var n1, n2 := NodeName(l1, x1), NodeName(l2, x2);
    if n1 == n2 {
      NodeNameThirdChar(l1, x1);
      NodeNameThirdChar(l2, x2);
      assert l1 == n1[0] && l2 == n2[0];
      if x1 >= 10 && x2 >= 10 {
        assert n1[2..] == Decimal.Str(x1) && n2[2..] == Decimal.Str(x2);
        Decimal.StrInjective(x1, x2);
      } else if x1 < 10 && x2 < 10 {
        assert n1[3..] == Decimal.Str(x1) && n2[3..] == Decimal.Str(x2);
        Decimal.StrInjective(x1, x2);
      }
    }
  }

  /** The third character tells the two name forms apart. */
  lemma NodeNameThirdChar(layer: char, x: nat)
    requires 1 <= x
    ensures |NodeName(layer, x)| >= 4
    ensures NodeName(layer, x)[2] == '0' <==> x < 10
  {
    if x >= 10 {
      assert NodeName(layer, x)[2] == Decimal.Str(x)[0];
      Decimal.StrTwoDigits(10);
      assert |Decimal.Str(x)| >= 2;
    }
  }

  // ---------------------------------------------------------------------------
  // Layer counts, with Python 2's floor division

  function CoreCount(k: nat): nat { (k / 2) * (k / 2) }
  function AggCount(k: nat): nat { (k / 2) * k }
  function EdgeCount(k: nat): nat { (k / 2) * k }
  function HostCount(k: nat): nat { EdgeCount(k) * k / 2 }

  /** How the layer counts relate for an even pod count: each layer has `k/2`
      switches per pod, each edge switch carries `k/2` hosts, and each pod holds
      as many hosts as there are core switches. */
  lemma LayerCounts(k: nat)
    requires k % 2 == 0
    ensures AggCount(k) == EdgeCount(k) == k * (k / 2)
    ensures HostCount(k) == EdgeCount(k) * (k / 2)
    ensures HostCount(k) == k * CoreCount(k)
  {
    var h := k / 2;
    assert k == 2 * h;
    assert EdgeCount(k) * k == 2 * (EdgeCount(k) * h);
    assert EdgeCount(k) * h == k * (h * h);
  }

  // ---------------------------------------------------------------------------
  // The links, in the order the builder adds them

  /** Switch `x` (0-based) of block `b`, blocks being runs of `k/2`
      consecutive entries of a layer list: entry `b * k / 2 + x`, the index
      the builder computes. */
  function BlockMember(k: nat, b: nat, x: nat): nat
  {
    b * k / 2 + x
  }

  const LinkBw: Option<int> := Some(1000)
  const LinkDelay: Option<string> := Some("0.1ms")

  /** The links the inner loop adds for aggregation switch `agg`: `k/2`
      uplinks to the core switches from `podOffset * k / 2` on. */
  function UplinkRow(k: nat, agg: string, podOffset: nat): seq<Link>
  {
    seq(k / 2, x requires 0 <= x => Link(agg, NodeName(CoreLayer, BlockMember(k, podOffset, x) + 1), LinkBw, LinkDelay))
  }

  /** The uplinks of aggregation switch `i` (0-based), whose `podOffset` is
      `i mod k/2`. */
  function CoreAggRow(k: nat, i: nat): seq<Link>
    requires 2 <= k
  {
    UplinkRow(k, NodeName(AggLayer, i + 1), i % (k / 2))
  }

  /** One row per aggregation switch. */
  function CoreAggRows(k: nat): seq<seq<Link>>
    requires 2 <= k
  {
    seq(AggCount(k), i requires 0 <= i => CoreAggRow(k, i))
  }

  function CoreAggLinks(k: nat): seq<Link>
    requires 2 <= k
  {
    Flatten(CoreAggRows(k))
  }

  /** The links the innermost loop adds in `pod` for the pod's aggregation
      switch `x`: one to each of the pod's `k/2` edge switches. */
  function AggEdgeRow(k: nat, pod: nat, x: nat): seq<Link>
  {
    seq(k / 2, y requires 0 <= y => Link(NodeName(AggLayer, BlockMember(k, pod, x) + 1), NodeName(EdgeLayer, BlockMember(k, pod, y) + 1), LinkBw, LinkDelay))
  }

  /** One row per aggregation switch of `pod`. */
  function AggEdgePodRows(k: nat, pod: nat): seq<seq<Link>>
  {
    seq(k / 2, x requires 0 <= x => AggEdgeRow(k, pod, x))
  }

  /** The links the middle loop adds for one pod. */
  function AggEdgePod(k: nat, pod: nat): seq<Link>
  {
    Flatten(AggEdgePodRows(k, pod))
  }

  /** One block of links per pod. */
  function AggEdgePods(k: nat): seq<seq<Link>>
  {
    seq(k, pod requires 0 <= pod => AggEdgePod(k, pod))
  }

  function AggEdgeLinks(k: nat): seq<Link>
  {
    Flatten(AggEdgePods(k))
  }

  /** The links the inner loop adds for edge switch `x` (0-based): one per port
      to hosts `x*k/2` up to `x*k/2 + k/2 - 1`. Host links carry no delay. */
  function EdgeHostRow(k: nat, x: nat): seq<Link>
  {
    seq(k / 2, port requires 0 <= port => Link(NodeName(EdgeLayer, x + 1), NodeName(HostLayer, BlockMember(k, x, port) + 1), LinkBw, None))
  }

  /** One row per edge switch. */
  function EdgeHostRows(k: nat): seq<seq<Link>>
  {
    seq(EdgeCount(k), x requires 0 <= x => EdgeHostRow(k, x))
  }

  function EdgeHostLinks(k: nat): seq<Link>
  {
    Flatten(EdgeHostRows(k))
  }

  /** All links of the fat tree, in the builder's order. */
  function FatTreeLinks(k: nat): seq<Link>
    requires 2 <= k
  {
    CoreAggLinks(k) + AggEdgeLinks(k) + EdgeHostLinks(k)
  }

  /** Where the attachment link of host `g` sits among all links. */
  function HostLinkIndex(k: nat, g: nat): nat
    requires 2 <= k
  {
    |CoreAggLinks(k)| + |AggEdgeLinks(k)| + g
  }

  /** The edge switch (0-based) that host `g` (0-based) hangs off. */
  function EdgeOfHost(k: nat, g: nat): nat
    requires 2 <= k
  {
    g / (k / 2)
  }

  // ---------------------------------------------------------------------------
  // The topology object

  /** A fat-tree topology: the four layer lists and the emulator topology the
      switches, hosts and links are registered in. */
  class FatTreeTopo {
    const k: nat
    const coreLayerSwitchNumber: nat
    const aggLayerSwitchNumber: nat
    const edgeLayerSwitchNumber: nat
    const hostNumber: nat
    var coreSwitchList: seq<string>
    var aggSwitchList: seq<string>
    var edgeSwitchList: seq<string>
    var hostList: seq<string>
    const topo: Topo

    /** The state a finished build leaves: the derived counts, each layer list
        holding its names, the same nodes registered with the emulator, and all
        fat-tree links. */
    ghost predicate Valid()
      reads this, topo
    {
      && 2 <= k && k % 2 == 0
      && coreLayerSwitchNumber == CoreCount(k) && aggLayerSwitchNumber == AggCount(k)
      && edgeLayerSwitchNumber == EdgeCount(k) && hostNumber == HostCount(k)
      && coreSwitchList == LayerNames(CoreLayer, CoreCount(k))
      && aggSwitchList == LayerNames(AggLayer, AggCount(k))
      && edgeSwitchList == LayerNames(EdgeLayer, EdgeCount(k))
      && hostList == LayerNames(HostLayer, HostCount(k))
      && topo.switches == coreSwitchList + aggSwitchList + edgeSwitchList
      && topo.hosts == hostList
      && topo.links == FatTreeLinks(k)
    }

    /** `FatTreeTopo(k)` on a fresh instance: derive the counts, create the
        four layers, then the links. */
    constructor (k: nat)
      requires 2 <= k && k % 2 == 0
      ensures this.k == k && Valid() && fresh(topo)
    {
      this.k := k;
      coreLayerSwitchNumber := (k / 2) * (k / 2);
      aggLayerSwitchNumber := (k / 2) * k;
      edgeLayerSwitchNumber := (k / 2) * k;
      hostNumber := ((k / 2) * k) * k / 2;
      coreSwitchList, aggSwitchList, edgeSwitchList, hostList := [], [], [], [];
      topo := new Topo();
      new;
      CreateCoreLayerSwitch(coreLayerSwitchNumber);
      CreateAggLayerSwitch(aggLayerSwitchNumber);
      CreateEdgeLayerSwitch(edgeLayerSwitchNumber);
      CreateHost(hostNumber);
      CreateLinks();
    }

    method CreateCoreLayerSwitch(number: nat)
      modifies this`coreSwitchList, topo`switches
      ensures coreSwitchList == old(coreSwitchList) + LayerNames(CoreLayer, number)
      ensures topo.switches == old(topo.switches) + LayerNames(CoreLayer, number)
    {
      for x := 1 to number + 1
        invariant coreSwitchList == old(coreSwitchList) + LayerNames(CoreLayer, x - 1)
        invariant topo.switches == old(topo.switches) + LayerNames(CoreLayer, x - 1)
      {
        var prefix := "100";
        if x >= 10 {
          prefix := "10";
        }
        var name := topo.AddSwitch(prefix + Decimal.Str(x));
        coreSwitchList := coreSwitchList + [name];
        assert LayerNames(CoreLayer, x) == LayerNames(CoreLayer, x - 1) + [NodeName(CoreLayer, x)];
      }
    }

    method CreateAggLayerSwitch(number: nat)
      modifies this`aggSwitchList, topo`switches
      ensures aggSwitchList == old(aggSwitchList) + LayerNames(AggLayer, number)
      ensures topo.switches == old(topo.switches) + LayerNames(AggLayer, number)
    {
      for x := 1 to number + 1
        invariant aggSwitchList == old(aggSwitchList) + LayerNames(AggLayer, x - 1)
        invariant topo.switches == old(topo.switches) + LayerNames(AggLayer, x - 1)
      {
        var prefix := "200";
        if x >= 10 {
          prefix := "20";
        }
        var name := topo.AddSwitch(prefix + Decimal.Str(x));
        aggSwitchList := aggSwitchList + [name];
        assert LayerNames(AggLayer, x) == LayerNames(AggLayer, x - 1) + [NodeName(AggLayer, x)];
      }
    }

    method CreateEdgeLayerSwitch(number: nat)
      modifies this`edgeSwitchList, topo`switches
      ensures edgeSwitchList == old(edgeSwitchList) + LayerNames(EdgeLayer, number)
      ensures topo.switches == old(topo.switches) + LayerNames(EdgeLayer, number)
    {
      for x := 1 to number + 1
        invariant edgeSwitchList == old(edgeSwitchList) + LayerNames(EdgeLayer, x - 1)
        invariant topo.switches == old(topo.switches) + LayerNames(EdgeLayer, x - 1)
      {
        var prefix := "300";
        if x >= 10 {
          prefix := "30";
        }
        var name := topo.AddSwitch(prefix + Decimal.Str(x));
        edgeSwitchList := edgeSwitchList + [name];
        assert LayerNames(EdgeLayer, x) == LayerNames(EdgeLayer, x - 1) + [NodeName(EdgeLayer, x)];
      }
    }

    method CreateHost(number: nat)
      modifies this`hostList, topo`hosts
      ensures hostList == old(hostList) + LayerNames(HostLayer, number)
      ensures topo.hosts == old(topo.hosts) + LayerNames(HostLayer, number)
    {
      for x := 1 to number + 1
        invariant hostList == old(hostList) + LayerNames(HostLayer, x - 1)
        invariant topo.hosts == old(topo.hosts) + LayerNames(HostLayer, x - 1)
      {
        var prefix := "400";
        if x >= 10 {
          prefix := "40";
        }
        var name := topo.AddHost(prefix + Decimal.Str(x));
        hostList := hostList + [name];
        assert LayerNames(HostLayer, x) == LayerNames(HostLayer, x - 1) + [NodeName(HostLayer, x)];
      }
    }

    /** `createLinks()`: the three wiring stages, in order. */
    method CreateLinks()
      requires 2 <= k && k % 2 == 0 && edgeLayerSwitchNumber == EdgeCount(k)
      requires coreSwitchList == LayerNames(CoreLayer, CoreCount(k))
      requires aggSwitchList == LayerNames(AggLayer, AggCount(k))
      requires edgeSwitchList == LayerNames(EdgeLayer, EdgeCount(k))
      requires hostList == LayerNames(HostLayer, HostCount(k))
      modifies topo`links
      ensures topo.links == old(topo.links) + FatTreeLinks(k)
    {
      LinkCoreToAgg();
      LinkAggToEdge();
      LinkEdgeToHosts();
      AppendThree(old(topo.links), CoreAggLinks(k), AggEdgeLinks(k), EdgeHostLinks(k));
    }

    /** Core to aggregation: each aggregation switch takes `k/2` uplinks to a
        block of core switches chosen by the rotating `podOffset`. */
    method LinkCoreToAgg()
      requires 2 <= k && k % 2 == 0
      requires coreSwitchList == LayerNames(CoreLayer, CoreCount(k))
      requires aggSwitchList == LayerNames(AggLayer, AggCount(k))
      modifies topo`links
      ensures topo.links == old(topo.links) + CoreAggLinks(k)
    {
      ghost var start := topo.links;
      ghost var rows := CoreAggRows(k);
      var podOffset := 0;
      for i := 0 to |aggSwitchList|
        invariant podOffset == i % (k / 2)
        invariant topo.links == start + Flatten(rows[..i])
      {
        BlockEnd(k, podOffset, k / 2);
        LinkUplinks(aggSwitchList[i], podOffset);
        FlattenAppend(start, rows, i);
        podOffset := podOffset + 1;
        if podOffset >= k / 2 {
          podOffset := 0;
        }
        ModStep(i, k / 2);
      }
      assert rows[..|aggSwitchList|] == rows;
    }

    /** The inner loop of the core-to-aggregation stage, for aggregation switch
        `agg`: `k/2` uplinks to the core switches from `podOffset * k / 2` on,
        all of which exist. */
    method LinkUplinks(agg: string, podOffset: nat)
      requires podOffset * k / 2 + k / 2 <= |coreSwitchList|
      requires coreSwitchList == LayerNames(CoreLayer, |coreSwitchList|)
      modifies topo`links
      ensures topo.links == old(topo.links) + UplinkRow(k, agg, podOffset)
    {
      ghost var start := topo.links;
      ghost var row := UplinkRow(k, agg, podOffset);
      var cores := coreSwitchList;
      for x := 0 to k / 2
        invariant topo.links == start + row[..x]
      {
        UplinkRowAt(k, agg, podOffset, x, cores);
        topo.AddRowLink(start, row, x, agg, cores[podOffset * k / 2 + x], LinkBw, LinkDelay);
      }
      assert row[..k / 2] == row;
    }

    /** Aggregation to edge: inside each pod, every aggregation switch to
        every edge switch. */
    method LinkAggToEdge()
      requires k % 2 == 0
      requires aggSwitchList == LayerNames(AggLayer, AggCount(k))
      requires edgeSwitchList == LayerNames(EdgeLayer, EdgeCount(k))
      modifies topo`links
      ensures topo.links == old(topo.links) + AggEdgeLinks(k)
    {
      ghost var start := topo.links;
      ghost var pods := AggEdgePods(k);
      for pod := 0 to k
        invariant topo.links == start + Flatten(pods[..pod])
      {
        LinkPodStep(pod, start);
      }
      TakeAll(pods);
    }

    /** One round of the pod loop of the aggregation-to-edge stage. */
    method LinkPodStep(pod: nat, ghost start: seq<Link>)
      requires k % 2 == 0 && pod < k
      requires aggSwitchList == LayerNames(AggLayer, AggCount(k))
      requires edgeSwitchList == LayerNames(EdgeLayer, EdgeCount(k))
      requires topo.links == start + Flatten(AggEdgePods(k)[..pod])
      modifies topo`links
      ensures topo.links == start + Flatten(AggEdgePods(k)[..pod + 1])
    {
      BlockEnd(k, pod, k);
      LinkPod(pod);
      FlattenAppend(start, AggEdgePods(k), pod);
    }

    /** The middle loop of the aggregation-to-edge stage, for one pod, whose
        switches `pod * k / 2` up to `k/2` further on exist in both layers. */
    method LinkPod(pod: nat)
      requires pod * k / 2 + k / 2 <= |aggSwitchList| && pod * k / 2 + k / 2 <= |edgeSwitchList|
      requires aggSwitchList == LayerNames(AggLayer, |aggSwitchList|)
      requires edgeSwitchList == LayerNames(EdgeLayer, |edgeSwitchList|)
      modifies topo`links
      ensures topo.links == old(topo.links) + AggEdgePod(k, pod)
    {
      ghost var start := topo.links;
      ghost var rows := AggEdgePodRows(k, pod);
      for x := 0 to k / 2
        invariant topo.links == start + Flatten(rows[..x])
      {
        LinkPodMember(pod, x);
        FlattenAppend(start, rows, x);
      }
      assert rows[..k / 2] == rows;
    }

    /** The innermost loop of the aggregation-to-edge stage: aggregation switch
        `x` of `pod` to each edge switch of the pod. */
    method LinkPodMember(pod: nat, x: nat)
      requires x < k / 2
      requires pod * k / 2 + k / 2 <= |aggSwitchList| && pod * k / 2 + k / 2 <= |edgeSwitchList|
      requires aggSwitchList == LayerNames(AggLayer, |aggSwitchList|)
      requires edgeSwitchList == LayerNames(EdgeLayer, |edgeSwitchList|)
      modifies topo`links
      ensures topo.links == old(topo.links) + AggEdgeRow(k, pod, x)
    {
      ghost var start := topo.links;
      ghost var row := AggEdgeRow(k, pod, x);
      var aggs, edges := aggSwitchList, edgeSwitchList;
      for y := 0 to k / 2
        invariant topo.links == start + row[..y]
      {
        AggEdgeRowAt(k, pod, x, y, aggs, edges);
        topo.AddRowLink(start, row, y, aggs[pod * k / 2 + x], edges[pod * k / 2 + y], LinkBw, LinkDelay);
      }
    }

    /** Edge switches to hosts: edge switch `x` to hosts `x*k/2` up to
        `x*k/2 + k/2 - 1`. */
    method LinkEdgeToHosts()
      requires k % 2 == 0 && edgeLayerSwitchNumber == EdgeCount(k)
      requires edgeSwitchList == LayerNames(EdgeLayer, EdgeCount(k))
      requires hostList == LayerNames(HostLayer, HostCount(k))
      modifies topo`links
      ensures topo.links == old(topo.links) + EdgeHostLinks(k)
    {
      ghost var start := topo.links;
      ghost var rows := EdgeHostRows(k);
      for x := 0 to edgeLayerSwitchNumber
        invariant topo.links == start + Flatten(rows[..x])
      {
        BlockEnd(k, x, EdgeCount(k));
        LayerCounts(k);
        LinkHostsOf(x);
        FlattenAppend(start, rows, x);
      }
      assert rows[..edgeLayerSwitchNumber] == rows;
    }

    /** The inner loop of the edge-to-host stage: edge switch `x` to each of its
        `k/2` hosts, from `x * k / 2` on, all of which exist. */
    method LinkHostsOf(x: nat)
      requires x < |edgeSwitchList| && x * k / 2 + k / 2 <= |hostList|
      requires edgeSwitchList == LayerNames(EdgeLayer, |edgeSwitchList|)
      requires hostList == LayerNames(HostLayer, |hostList|)
      modifies topo`links
      ensures topo.links == old(topo.links) + EdgeHostRow(k, x)
    {
      ghost var start := topo.links;
      ghost var row := EdgeHostRow(k, x);
      var edges, hosts := edgeSwitchList, hostList;
      for port := 0 to k / 2
        invariant topo.links == start + row[..port]
      {
        EdgeHostRowAt(k, x, port, edges, hosts);
        topo.AddRowLink(start, row, port, edges[x], hosts[x * k / 2 + port], LinkBw, None);
      }
    }

    /** `hosts()`: the host names, the same list the emulator topology holds. */
    function Hosts(): (r: seq<string>)
      reads this, topo
      requires Valid()
      ensures |r| == HostCount(k) && r == topo.hosts
      ensures forall i :: 0 <= i < |r| ==> r[i] == NodeName(HostLayer, i + 1)
    {
      hostList
    }
  }

  /** Uplink `x` of a row goes to entry `podOffset * k / 2 + x` of the core
      switch list. */
  lemma UplinkRowAt(k: nat, agg: string, podOffset: nat, x: nat, cores: seq<string>)
    requires x < k / 2 && podOffset * k / 2 + k / 2 <= |cores|
    requires cores == LayerNames(CoreLayer, |cores|)
    ensures podOffset * k / 2 + x < |cores|
    ensures UplinkRow(k, agg, podOffset)[x] == Link(agg, cores[podOffset * k / 2 + x], LinkBw, LinkDelay)
  {
  }

  /** Link `y` of the row of aggregation switch `x` of `pod` joins entries
      `pod * k / 2 + x` and `pod * k / 2 + y` of the two layer lists. */
  lemma AggEdgeRowAt(k: nat, pod: nat, x: nat, y: nat, aggs: seq<string>, edges: seq<string>)
    requires x < k / 2 && y < k / 2
    requires pod * k / 2 + k / 2 <= |aggs| && pod * k / 2 + k / 2 <= |edges|
    requires aggs == LayerNames(AggLayer, |aggs|) && edges == LayerNames(EdgeLayer, |edges|)
    ensures pod * k / 2 + x < |aggs| && pod * k / 2 + y < |edges|
    ensures AggEdgeRow(k, pod, x)[y] == Link(aggs[pod * k / 2 + x], edges[pod * k / 2 + y], LinkBw, LinkDelay)
  {
  }

  /** Port `port` of edge switch `x` goes to entry `x * k / 2 + port` of the
      host list. */
  lemma EdgeHostRowAt(k: nat, x: nat, port: nat, edges: seq<string>, hosts: seq<string>)
    requires port < k / 2 && x < |edges| && x * k / 2 + k / 2 <= |hosts|
    requires edges == LayerNames(EdgeLayer, |edges|) && hosts == LayerNames(HostLayer, |hosts|)
    ensures x * k / 2 + port < |hosts|
    ensures EdgeHostRow(k, x)[port] == Link(edges[x], hosts[x * k / 2 + port], LinkBw, None)
  {
  }

  /** Entry `x` of block `b` lies in the first `n` blocks when `b < n`, and
      the block and the position in it are read back by quotient and
      remainder. */
  lemma BlockMemberBounds(k: nat, b: nat, x: nat, n: nat)
    requires k % 2 == 0 && x < k / 2 && b < n
    ensures BlockMember(k, b, x) == b * (k / 2) + x
    ensures BlockMember(k, b, x) < n * (k / 2)
    ensures BlockMember(k, b, x) / (k / 2) == b && BlockMember(k, b, x) % (k / 2) == x
  {
    HalfProduct(b, k);
    RowBefore(b, k / 2, x, n);
    DivMod(b, k / 2, x);
  }

  /** Every entry `c` is entry `c mod k/2` of block `c div k/2`. */
  lemma BlockOf(k: nat, c: nat)
    requires 2 <= k && k % 2 == 0
    ensures c % (k / 2) < k / 2 && c == BlockMember(k, c / (k / 2), c % (k / 2))
  {
    HalfProduct(c / (k / 2), k);
    Decompose(c, k / 2);
  }

  /** The `k/2` entries of block `b`, from `b * k / 2` on, lie in the first
      `n` blocks when `b < n`. */
  lemma BlockEnd(k: nat, b: nat, n: nat)
    requires k % 2 == 0 && b < n
    ensures b * k / 2 + k / 2 <= n * (k / 2)
  {
    if 2 <= k {
      BlockMemberBounds(k, b, k / 2 - 1, n);
    }
  }

  // ---------------------------------------------------------------------------
  // What the three wiring stages connect

  /** The shape of the core-to-aggregation rows: one per aggregation switch,
      `k/2` uplinks each, and uplink `x` of switch `i` written out. */
  lemma CoreAggAt(k: nat, i: nat, x: nat)
    requires 2 <= k && i < AggCount(k) && x < k / 2
    ensures |CoreAggRows(k)| == AggCount(k) && |CoreAggRows(k)[i]| == k / 2
    ensures CoreAggRows(k)[i][x] == Link(NodeName(AggLayer, i + 1), NodeName(CoreLayer, BlockMember(k, i % (k / 2), x) + 1), LinkBw, LinkDelay)
  {
  }

  /** Which switches an uplink of the core-to-aggregation stage connects,
      read back from its position. */
  lemma CoreAggAtInverse(k: nat, j: nat, x: nat, i: nat, c: nat)
    requires 2 <= k && k % 2 == 0 && j < AggCount(k) && x < k / 2
    requires CoreAggRows(k)[j][x] == Link(NodeName(AggLayer, i + 1), NodeName(CoreLayer, c + 1), LinkBw, LinkDelay)
    ensures i == j && c < CoreCount(k) && c / (k / 2) == j % (k / 2)
  {
    var p := j % (k / 2);
    CoreAggAt(k, j, x);
    NodeNameInjective(AggLayer, i + 1, AggLayer, j + 1);
    NodeNameInjective(CoreLayer, c + 1, CoreLayer, BlockMember(k, p, x) + 1);
    BlockMemberBounds(k, p, x, k / 2);
  }

  /** Every uplink goes from an aggregation switch `i` into the core block
      `i mod k/2`. */
  lemma CoreAggLinkedOnly(k: nat, i: nat, c: nat)
    requires 2 <= k && k % 2 == 0
    requires Link(NodeName(AggLayer, i + 1), NodeName(CoreLayer, c + 1), LinkBw, LinkDelay) in CoreAggLinks(k)
    ensures i < AggCount(k) && c < CoreCount(k) && c / (k / 2) == i % (k / 2)
  {
    var l := Link(NodeName(AggLayer, i + 1), NodeName(CoreLayer, c + 1), LinkBw, LinkDelay);
    FlattenMember(CoreAggRows(k), l);
    var j, x :| 0 <= j < |CoreAggRows(k)| && 0 <= x < |CoreAggRows(k)[j]| && CoreAggRows(k)[j][x] == l;
    CoreAggAtInverse(k, j, x, i, c);
  }

  /** Every aggregation switch `i` has an uplink to each core switch of block
      `i mod k/2`. */
  lemma CoreAggLinkedAll(k: nat, i: nat, c: nat)
    requires 2 <= k && k % 2 == 0
    requires i < AggCount(k) && c < CoreCount(k) && c / (k / 2) == i % (k / 2)
    ensures Link(NodeName(AggLayer, i + 1), NodeName(CoreLayer, c + 1), LinkBw, LinkDelay) in CoreAggLinks(k)
  {
    var x := c % (k / 2);
    BlockOf(k, c);
    CoreAggAt(k, i, x);
    FlattenContains(CoreAggRows(k), i, CoreAggRows(k)[i][x]);
  }

  /** Core to aggregation: aggregation switch `i` has an uplink to core switch
      `c` exactly when `c` lies in the block of `k/2` core switches that
      `i mod k/2` selects. */
  lemma CoreAggLinked(k: nat, i: nat, c: nat)
    requires 2 <= k && k % 2 == 0
    ensures Link(NodeName(AggLayer, i + 1), NodeName(CoreLayer, c + 1), LinkBw, LinkDelay) in CoreAggLinks(k)
        <==> i < AggCount(k) && c < CoreCount(k) && c / (k / 2) == i % (k / 2)
  {
    if Link(NodeName(AggLayer, i + 1), NodeName(CoreLayer, c + 1), LinkBw, LinkDelay) in CoreAggLinks(k) {
      CoreAggLinkedOnly(k, i, c);
    }
    if i < AggCount(k) && c < CoreCount(k) && c / (k / 2) == i % (k / 2) {
      CoreAggLinkedAll(k, i, c);
    }
  }

  /** Every core switch receives exactly one uplink from each pod: from the
      pod's aggregation switch number `c div k/2` within the pod. */
  lemma CoreUplinkPerPod(k: nat, c: nat, pod: nat, r: nat)
    requires 2 <= k && k % 2 == 0 && c < CoreCount(k) && pod < k && r < k / 2
    ensures c / (k / 2) < k / 2
    ensures Link(NodeName(AggLayer, BlockMember(k, pod, r) + 1), NodeName(CoreLayer, c + 1), LinkBw, LinkDelay) in CoreAggLinks(k)
        <==> r == c / (k / 2)
  {
    QuotientBound(c, k / 2, k / 2);
    BlockMemberBounds(k, pod, r, k);
    CoreAggLinked(k, BlockMember(k, pod, r), c);
  }

  /** The core-to-aggregation stage adds `k/2` uplinks per aggregation switch. */
  lemma CoreAggCount(k: nat)
    requires 2 <= k
    ensures |CoreAggLinks(k)| == AggCount(k) * (k / 2)
  {
    FlattenLength(CoreAggRows(k), k / 2);
  }

  /** The shape of the aggregation-to-edge links: one block per pod, one row
      per aggregation switch of the pod, one link per edge switch of it. */
  lemma AggEdgeShape(k: nat, pod: nat, x: nat)
    requires pod < k && x < k / 2
    ensures |AggEdgePods(k)| == k && AggEdgePods(k)[pod] == Flatten(AggEdgePodRows(k, pod))
    ensures |AggEdgePodRows(k, pod)| == k / 2 && |AggEdgePodRows(k, pod)[x]| == k / 2
  {
  }

  /** The link from aggregation switch `x` to edge switch `y` of `pod`. */
  lemma AggEdgeAt(k: nat, pod: nat, x: nat, y: nat)
    requires x < k / 2 && y < k / 2
    ensures AggEdgePodRows(k, pod)[x][y] == Link(NodeName(AggLayer, BlockMember(k, pod, x) + 1), NodeName(EdgeLayer, BlockMember(k, pod, y) + 1), LinkBw, LinkDelay)
  {
  }

  /** Which switches a link of the aggregation-to-edge stage connects, read
      back from its position. */
  lemma AggEdgeAtInverse(k: nat, pod: nat, x: nat, y: nat, a: nat, e: nat)
    requires k % 2 == 0 && pod < k && x < k / 2 && y < k / 2
    requires AggEdgePodRows(k, pod)[x][y] == Link(NodeName(AggLayer, a + 1), NodeName(EdgeLayer, e + 1), LinkBw, LinkDelay)
    ensures a < AggCount(k) && e < EdgeCount(k) && a / (k / 2) == pod == e / (k / 2)
  {
    AggEdgeAt(k, pod, x, y);
    NodeNameInjective(AggLayer, a + 1, AggLayer, BlockMember(k, pod, x) + 1);
    NodeNameInjective(EdgeLayer, e + 1, EdgeLayer, BlockMember(k, pod, y) + 1);
    BlockMemberBounds(k, pod, x, k);
    BlockMemberBounds(k, pod, y, k);
  }

  /** A link of the aggregation-to-edge stage belongs to some pod's block. */
  lemma AggEdgePodOf(k: nat, l: Link) returns (pod: nat)
    requires l in AggEdgeLinks(k)
    ensures pod < k && l in Flatten(AggEdgePodRows(k, pod))
  {
    FlattenMember(AggEdgePods(k), l);
    var p, n :| 0 <= p < |AggEdgePods(k)| && 0 <= n < |AggEdgePods(k)[p]| && AggEdgePods(k)[p][n] == l;
    pod := p;
  }

  /** A link of the aggregation-to-edge stage sits at some row and column of
      some pod. */
  lemma AggEdgeMember(k: nat, l: Link) returns (pod: nat, x: nat, y: nat)
    requires l in AggEdgeLinks(k)
    ensures pod < k && x < k / 2 && y < k / 2 && AggEdgePodRows(k, pod)[x][y] == l
  {
    pod := AggEdgePodOf(k, l);
    FlattenMember(AggEdgePodRows(k, pod), l);
    x, y :| 0 <= x < |AggEdgePodRows(k, pod)| && 0 <= y < |AggEdgePodRows(k, pod)[x]| && AggEdgePodRows(k, pod)[x][y] == l;
  }

  /** The link at row `x`, column `y` of `pod` is one of the stage's links. */
  lemma AggEdgeContains(k: nat, pod: nat, x: nat, y: nat)
    requires pod < k && x < k / 2 && y < k / 2
    ensures AggEdgePodRows(k, pod)[x][y] in AggEdgeLinks(k)
  {
    var l := AggEdgePodRows(k, pod)[x][y];
    AggEdgeShape(k, pod, x);
    FlattenContains(AggEdgePodRows(k, pod), x, l);
    FlattenContains(AggEdgePods(k), pod, l);
  }

  /** Every aggregation-to-edge link stays inside one pod. */
  lemma AggEdgeLinkedOnly(k: nat, a: nat, e: nat)
    requires k % 2 == 0
    requires Link(NodeName(AggLayer, a + 1), NodeName(EdgeLayer, e + 1), LinkBw, LinkDelay) in AggEdgeLinks(k)
    ensures a < AggCount(k) && e < EdgeCount(k) && a / (k / 2) == e / (k / 2)
  {
    var pod, x, y := AggEdgeMember(k, Link(NodeName(AggLayer, a + 1), NodeName(EdgeLayer, e + 1), LinkBw, LinkDelay));
    AggEdgeAtInverse(k, pod, x, y, a, e);
  }

  /** Inside each pod, every aggregation switch is linked to every edge
      switch. */
  lemma AggEdgeLinkedAll(k: nat, a: nat, e: nat)
    requires 2 <= k && k % 2 == 0
    requires a < AggCount(k) && e < EdgeCount(k) && a / (k / 2) == e / (k / 2)
    ensures Link(NodeName(AggLayer, a + 1), NodeName(EdgeLayer, e + 1), LinkBw, LinkDelay) in AggEdgeLinks(k)
  {
    var pod, x, y := PodPosition(k, a, e);
    AggEdgeAt(k, pod, x, y);
    AggEdgeContains(k, pod, x, y);
  }

  /** An aggregation switch `a` and an edge switch `e` of one pod are
      switches `x` and `y` of pod `a div k/2`. */
  lemma PodPosition(k: nat, a: nat, e: nat) returns (pod: nat, x: nat, y: nat)
    requires 2 <= k && k % 2 == 0
    requires a < AggCount(k) && a / (k / 2) == e / (k / 2)
    ensures pod < k && x < k / 2 && y < k / 2
    ensures BlockMember(k, pod, x) == a && BlockMember(k, pod, y) == e
  {
    pod, x, y := a / (k / 2), a % (k / 2), e % (k / 2);
    QuotientBound(a, k / 2, k);
    BlockOf(k, a);
    BlockOf(k, e);
  }

  /** Aggregation to edge: an aggregation switch and an edge switch are linked
      exactly when they lie in the same pod, pods being blocks of `k/2`. */
  lemma AggEdgeLinked(k: nat, a: nat, e: nat)
    requires 2 <= k && k % 2 == 0
    ensures Link(NodeName(AggLayer, a + 1), NodeName(EdgeLayer, e + 1), LinkBw, LinkDelay) in AggEdgeLinks(k)
        <==> a < AggCount(k) && e < EdgeCount(k) && a / (k / 2) == e / (k / 2)
  {
    if Link(NodeName(AggLayer, a + 1), NodeName(EdgeLayer, e + 1), LinkBw, LinkDelay) in AggEdgeLinks(k) {
      AggEdgeLinkedOnly(k, a, e);
    }
    if a < AggCount(k) && e < EdgeCount(k) && a / (k / 2) == e / (k / 2) {
      AggEdgeLinkedAll(k, a, e);
    }
  }

  /** The aggregation-to-edge stage adds `k * (k/2)²` links. */
  lemma AggEdgeCount(k: nat)
    ensures |AggEdgeLinks(k)| == k * ((k / 2) * (k / 2))
  {
    var h := k / 2;
    var pods := AggEdgePods(k);
    forall pod | 0 <= pod < k
      ensures |pods[pod]| == h * h
    {
      FlattenLength(AggEdgePodRows(k, pod), h);
    }
    FlattenLength(pods, h * h);
  }

  /** The shape of the edge-to-host rows: one per edge switch, `k/2` links
      each, and port `port` of switch `x` written out. */
  lemma EdgeHostAt(k: nat, x: nat, port: nat)
    requires x < EdgeCount(k) && port < k / 2
    ensures |EdgeHostRows(k)| == EdgeCount(k) && |EdgeHostRows(k)[x]| == k / 2
    ensures EdgeHostRows(k)[x][port] == Link(NodeName(EdgeLayer, x + 1), NodeName(HostLayer, BlockMember(k, x, port) + 1), LinkBw, None)
  {
  }

  /** Every edge-to-host link goes from edge switch `g div k/2` to host `g`. */
  lemma EdgeHostLinkedOnly(k: nat, x: nat, g: nat)
    requires k % 2 == 0
    requires Link(NodeName(EdgeLayer, x + 1), NodeName(HostLayer, g + 1), LinkBw, None) in EdgeHostLinks(k)
    ensures x < EdgeCount(k) && g < HostCount(k) && g / (k / 2) == x
  {
    var l := Link(NodeName(EdgeLayer, x + 1), NodeName(HostLayer, g + 1), LinkBw, None);
    FlattenMember(EdgeHostRows(k), l);
    var j, port :| 0 <= j < |EdgeHostRows(k)| && 0 <= port < |EdgeHostRows(k)[j]| && EdgeHostRows(k)[j][port] == l;
    EdgeHostAtInverse(k, j, port, x, g);
  }

  /** Which edge switch and host a link of the edge-to-host stage connects,
      read back from its position. */
  lemma EdgeHostAtInverse(k: nat, j: nat, port: nat, x: nat, g: nat)
    requires k % 2 == 0 && j < EdgeCount(k) && port < k / 2
    requires EdgeHostRows(k)[j][port] == Link(NodeName(EdgeLayer, x + 1), NodeName(HostLayer, g + 1), LinkBw, None)
    ensures x < EdgeCount(k) && g < HostCount(k) && g / (k / 2) == x
  {
    EdgeHostAt(k, j, port);
    NodeNameInjective(EdgeLayer, x + 1, EdgeLayer, j + 1);
    NodeNameInjective(HostLayer, g + 1, HostLayer, BlockMember(k, j, port) + 1);
    BlockMemberBounds(k, j, port, EdgeCount(k));
    LayerCounts(k);
  }

  /** Every host `g` is linked to edge switch `g div k/2`. */
  lemma EdgeHostLinkedAll(k: nat, g: nat)
    requires 2 <= k && k % 2 == 0 && g < HostCount(k)
    ensures Link(NodeName(EdgeLayer, EdgeOfHost(k, g) + 1), NodeName(HostLayer, g + 1), LinkBw, None) in EdgeHostLinks(k)
  {
    var x, port := g / (k / 2), g % (k / 2);
    LayerCounts(k);
    QuotientBound(g, k / 2, EdgeCount(k));
    BlockOf(k, g);
    EdgeHostAt(k, x, port);
    FlattenContains(EdgeHostRows(k), x, EdgeHostRows(k)[x][port]);
  }

  /** Edge to host: edge switch `x` is linked to host `g` exactly when `g`
      lies in the `x`-th block of `k/2` hosts, and every host has such a
      block. */
  lemma EdgeHostLinked(k: nat, x: nat, g: nat)
    requires 2 <= k && k % 2 == 0
    ensures Link(NodeName(EdgeLayer, x + 1), NodeName(HostLayer, g + 1), LinkBw, None) in EdgeHostLinks(k)
        <==> g < HostCount(k) && g / (k / 2) == x
  {
    if Link(NodeName(EdgeLayer, x + 1), NodeName(HostLayer, g + 1), LinkBw, None) in EdgeHostLinks(k) {
      EdgeHostLinkedOnly(k, x, g);
    }
    if g < HostCount(k) && g / (k / 2) == x {
      EdgeHostLinkedAll(k, g);
    }
  }

  /** The edge-to-host stage adds one link per host. */
  lemma EdgeHostCount(k: nat)
    requires k % 2 == 0
    ensures |EdgeHostLinks(k)| == HostCount(k)
  {
    FlattenLength(EdgeHostRows(k), k / 2);
    LayerCounts(k);
  }

  /** Link `m` of the edge-to-host stage attaches host `m` to edge switch
      `m div k/2`. */
  lemma EdgeHostLinkAt(k: nat, m: nat)
    requires 2 <= k && k % 2 == 0 && m < HostCount(k)
    ensures |EdgeHostLinks(k)| == HostCount(k)
    ensures EdgeHostLinks(k)[m] == Link(NodeName(EdgeLayer, EdgeOfHost(k, m) + 1), NodeName(HostLayer, m + 1), LinkBw, None)
  {
    var x, port := m / (k / 2), m % (k / 2);
    LayerCounts(k);
    EdgeHostCount(k);
    QuotientBound(m, k / 2, EdgeCount(k));
    BlockOf(k, m);
    Decompose(m, k / 2);
    EdgeHostAt(k, x, port);
    FlattenAt(EdgeHostRows(k), k / 2, x, port);
  }

  /** No core-to-aggregation link has a host at either end. */
  lemma CoreAggAvoidsHosts(k: nat, l: Link, g: nat)
    requires 2 <= k && l in CoreAggLinks(k)
    ensures !l.Touches(NodeName(HostLayer, g + 1))
  {
    FlattenMember(CoreAggRows(k), l);
    var j, x :| 0 <= j < |CoreAggRows(k)| && 0 <= x < |CoreAggRows(k)[j]| && CoreAggRows(k)[j][x] == l;
    CoreAggAt(k, j, x);
    NodeNameInjective(AggLayer, j + 1, HostLayer, g + 1);
    NodeNameInjective(CoreLayer, BlockMember(k, j % (k / 2), x) + 1, HostLayer, g + 1);
  }

  /** No aggregation-to-edge link has a host at either end. */
  lemma AggEdgeAvoidsHosts(k: nat, l: Link, g: nat)
    requires l in AggEdgeLinks(k)
    ensures !l.Touches(NodeName(HostLayer, g + 1))
  {
    var pod, x, y := AggEdgeMember(k, l);
    AggEdgeAt(k, pod, x, y);
    NodeNameInjective(AggLayer, BlockMember(k, pod, x) + 1, HostLayer, g + 1);
    NodeNameInjective(EdgeLayer, BlockMember(k, pod, y) + 1, HostLayer, g + 1);
  }

  /** No link of the two switch-to-switch stages has a host at either end. */
  lemma SwitchLinkAvoidsHosts(k: nat, n: nat, g: nat)
    requires 2 <= k && n < |CoreAggLinks(k)| + |AggEdgeLinks(k)|
    ensures !FatTreeLinks(k)[n].Touches(NodeName(HostLayer, g + 1))
  {
    var ca, ae := CoreAggLinks(k), AggEdgeLinks(k);
    if n < |ca| {
      assert FatTreeLinks(k)[n] == ca[n];
      CoreAggAvoidsHosts(k, ca[n], g);
    } else {
      assert FatTreeLinks(k)[n] == ae[n - |ca|];
      AggEdgeAvoidsHosts(k, ae[n - |ca|], g);
    }
  }

  /** Host `g` is attached to edge switch `g div k/2`, by link number
      `HostLinkIndex(k, g)`. */
  lemma HostAttachment(k: nat, g: nat)
    requires 2 <= k && k % 2 == 0 && g < HostCount(k)
    ensures HostLinkIndex(k, g) < |FatTreeLinks(k)|
    ensures FatTreeLinks(k)[HostLinkIndex(k, g)] == Link(NodeName(EdgeLayer, EdgeOfHost(k, g) + 1), NodeName(HostLayer, g + 1), LinkBw, None)
  {
    EdgeHostLinkAt(k, g);
    ThirdPart(CoreAggLinks(k), AggEdgeLinks(k), EdgeHostLinks(k), HostLinkIndex(k, g));
  }

  /** Every host has exactly one attachment link in the whole fat tree: no
      other link has the host at either end. */
  lemma HostAttachedOnce(k: nat, g: nat, n: nat)
    requires 2 <= k && k % 2 == 0 && g < HostCount(k) && n < |FatTreeLinks(k)|
    ensures FatTreeLinks(k)[n].Touches(NodeName(HostLayer, g + 1)) <==> n == HostLinkIndex(k, g)
  {
    var offset := |CoreAggLinks(k)| + |AggEdgeLinks(k)|;
    if n < offset {
      SwitchLinkAvoidsHosts(k, n, g);
    } else {
      var m := n - offset;
      EdgeHostCount(k);
      ThirdPart(CoreAggLinks(k), AggEdgeLinks(k), EdgeHostLinks(k), n);
      HostLinksTouch(k, m, g);
    }
  }

  /** Link `m` of the edge-to-host stage has host `g` at one end only when
      `m` is `g`. */
  lemma HostLinksTouch(k: nat, m: nat, g: nat)
    requires 2 <= k && k % 2 == 0 && m < HostCount(k)
    ensures |EdgeHostLinks(k)| == HostCount(k)
    ensures EdgeHostLinks(k)[m].Touches(NodeName(HostLayer, g + 1)) <==> m == g
  {
    EdgeHostLinkAt(k, m);
    HostLinkTouches(EdgeOfHost(k, m), m, g);
  }

  /** The attachment link of host `m` has host `g` at one end only when `m`
      is `g`. */
  lemma HostLinkTouches(e: nat, m: nat, g: nat)
    ensures Link(NodeName(EdgeLayer, e + 1), NodeName(HostLayer, m + 1), LinkBw, None).Touches(NodeName(HostLayer, g + 1)) <==> m == g
  {
    NodeNameInjective(EdgeLayer, e + 1, HostLayer, g + 1);
    NodeNameInjective(HostLayer, m + 1, HostLayer, g + 1);
  }

  // ---------------------------------------------------------------------------
  // Degrees: how many switches and hosts each switch is linked to

  /** Aggregation switch `i` has an uplink to core switch `c`. */
  predicate Uplinked(k: nat, i: nat, c: nat)
    requires 2 <= k
  {
    Link(NodeName(AggLayer, i + 1), NodeName(CoreLayer, c + 1), LinkBw, LinkDelay) in CoreAggLinks(k)
  }

  /** Aggregation switch `a` is linked to edge switch `e`. */
  predicate PodLinked(k: nat, a: nat, e: nat)
  {
    Link(NodeName(AggLayer, a + 1), NodeName(EdgeLayer, e + 1), LinkBw, LinkDelay) in AggEdgeLinks(k)
  }

  /** Edge switch `x` is linked to host `g`. */
  predicate HostLinked(k: nat, x: nat, g: nat)
  {
    Link(NodeName(EdgeLayer, x + 1), NodeName(HostLayer, g + 1), LinkBw, None) in EdgeHostLinks(k)
  }

  /** The core switches that aggregation switch `i` has an uplink to. */
  function UplinkCores(k: nat, i: nat): set<nat>
    requires 2 <= k
  {
    set c: nat | c < CoreCount(k) && Uplinked(k, i, c)
  }

  /** The aggregation switches that have an uplink to core switch `c`. */
  function UplinkAggs(k: nat, c: nat): set<nat>
    requires 2 <= k
  {
    set a: nat | a < AggCount(k) && Uplinked(k, a, c)
  }

  /** The edge switches that aggregation switch `a` is linked to. */
  function PodEdges(k: nat, a: nat): set<nat>
  {
    set e: nat | e < EdgeCount(k) && PodLinked(k, a, e)
  }

  /** The aggregation switches that edge switch `e` is linked to. */
  function PodAggs(k: nat, e: nat): set<nat>
  {
    set a: nat | a < AggCount(k) && PodLinked(k, a, e)
  }

  /** The hosts that edge switch `x` is linked to. */
  function EdgeHosts(k: nat, x: nat): set<nat>
  {
    set g: nat | g < HostCount(k) && HostLinked(k, x, g)
  }

  /** Every aggregation switch has exactly `k/2` uplinks to core switches. */
  lemma AggUplinkDegree(k: nat, i: nat)
    requires 2 <= k && k % 2 == 0 && i < AggCount(k)
    ensures |UplinkCores(k, i)| == k / 2
  {
    var h := k / 2;
    var p := i % h;
    forall c: nat
      ensures c in UplinkCores(k, i) <==> c < CoreCount(k) && c / h == p
    {
      CoreAggLinked(k, i, c);
    }
    RowBefore(p, h, h - 1, h);
    QuotientClassSize(UplinkCores(k, i), CoreCount(k), h, p);
  }

  /** Every core switch has exactly `k` uplinks from aggregation switches, one
      per pod. */
  lemma CoreDownDegree(k: nat, c: nat)
    requires 2 <= k && k % 2 == 0 && c < CoreCount(k)
    ensures |UplinkAggs(k, c)| == k
  {
    UplinkAggsAre(k, c);
    ResidueClassSize(UplinkAggs(k, c), k / 2, c / (k / 2), k);
  }

  lemma UplinkAggsAre(k: nat, c: nat)
    requires 2 <= k && k % 2 == 0 && c < CoreCount(k)
    ensures c / (k / 2) < k / 2
    ensures forall a: nat :: a in UplinkAggs(k, c) <==> a < k * (k / 2) && a % (k / 2) == c / (k / 2)
  {
    var h := k / 2;
    QuotientBound(c, h, h);
    assert AggCount(k) == k * h;
    forall a: nat
      ensures a in UplinkAggs(k, c) <==> a < k * h && a % h == c / h
    {
      CoreAggLinked(k, a, c);
    }
  }

  /** Every aggregation switch is linked to exactly `k/2` edge switches: those
      of its pod. */
  lemma AggDownDegree(k: nat, a: nat)
    requires 2 <= k && k % 2 == 0 && a < AggCount(k)
    ensures |PodEdges(k, a)| == k / 2
  {
    PodEdgesAre(k, a);
    IntervalSize(a / (k / 2) * (k / 2), k / 2);
  }

  /** The edge switches linked to aggregation switch `a` are the block of
      `k/2` consecutive indices of its pod. */
  lemma PodEdgesAre(k: nat, a: nat)
    requires 2 <= k && k % 2 == 0 && a < AggCount(k)
    ensures PodEdges(k, a) == Interval(a / (k / 2) * (k / 2), k / 2)
  {
    var h: nat := k / 2;
    var p: nat := a / h;
    PodBlockFits(k, a);
    forall e: nat
      ensures e in PodEdges(k, a) <==> e in Interval(p * h, h)
    {
      PodEdgeMember(k, a, e, h, p);
    }
  }

  lemma PodEdgeMember(k: nat, a: nat, e: nat, h: nat, p: nat)
    requires 2 <= k && k % 2 == 0 && a < AggCount(k)
    requires h == k / 2 && p == a / h && p * h + h <= EdgeCount(k)
    ensures e in PodEdges(k, a) <==> e in Interval(p * h, h)
  {
    AggEdgeLinked(k, a, e);
    QuotientIs(e, h, p);
  }

  /** The pod of switch `x` of the aggregation or edge layer ends inside the
      layer. */
  lemma PodBlockFits(k: nat, x: nat)
    requires 2 <= k && x < k * (k / 2)
    ensures (x / (k / 2)) * (k / 2) + k / 2 <= k * (k / 2)
  {
    var h := k / 2;
    QuotientBound(x, h, k);
    RowBefore(x / h, h, h - 1, k);
  }

  /** Every edge switch is linked to exactly `k/2` aggregation switches: those
      of its pod. */
  lemma EdgeUpDegree(k: nat, e: nat)
    requires 2 <= k && k % 2 == 0 && e < EdgeCount(k)
    ensures |PodAggs(k, e)| == k / 2
  {
    PodAggsAre(k, e);
    IntervalSize(e / (k / 2) * (k / 2), k / 2);
  }

  /** The aggregation switches linked to edge switch `e` are the block of
      `k/2` consecutive indices of its pod. */
  lemma PodAggsAre(k: nat, e: nat)
    requires 2 <= k && k % 2 == 0 && e < EdgeCount(k)
    ensures PodAggs(k, e) == Interval(e / (k / 2) * (k / 2), k / 2)
  {
    var h: nat := k / 2;
    var p: nat := e / h;
    PodBlockFits(k, e);
    forall a: nat
      ensures a in PodAggs(k, e) <==> a in Interval(p * h, h)
    {
      PodAggMember(k, e, a, h, p);
    }
  }

  lemma PodAggMember(k: nat, e: nat, a: nat, h: nat, p: nat)
    requires 2 <= k && k % 2 == 0 && e < EdgeCount(k)
    requires h == k / 2 && p == e / h && p * h + h <= AggCount(k)
    ensures a in PodAggs(k, e) <==> a in Interval(p * h, h)
  {
    AggEdgeLinked(k, a, e);
    QuotientIs(a, h, p);
  }

  /** Every edge switch is linked to exactly `k/2` hosts. */
  lemma EdgeHostDegree(k: nat, x: nat)
    requires 2 <= k && k % 2 == 0 && x < EdgeCount(k)
    ensures |EdgeHosts(k, x)| == k / 2
  {
    var h := k / 2;
    forall g: nat
      ensures g in EdgeHosts(k, x) <==> g < HostCount(k) && g / h == x
    {
      EdgeHostLinked(k, x, g);
    }
    LayerCounts(k);
    RowBefore(x, h, h - 1, EdgeCount(k));
    QuotientClassSize(EdgeHosts(k, x), HostCount(k), h, x);
  }

  // ---------------------------------------------------------------------------
  // No link is added twice

  /** The uplinks of one aggregation switch go to distinct core switches. */
  lemma CoreAggRowNoDups(k: nat, i: nat)
    requires 2 <= k && k % 2 == 0 && i < AggCount(k)
    ensures Pairing.NoDups(CoreAggRows(k)[i])
  {
    var row := CoreAggRows(k)[i];
    var p := i % (k / 2);
    forall x, y | 0 <= x < y < |row|
      ensures row[x] != row[y]
    {
      CoreAggAt(k, i, x);
      CoreAggAt(k, i, y);
      BlockMemberBounds(k, p, x, k / 2);
      BlockMemberBounds(k, p, y, k / 2);
      NodeNameInjective(CoreLayer, BlockMember(k, p, x) + 1, CoreLayer, BlockMember(k, p, y) + 1);
    }
  }

  /** Uplinks of different aggregation switches differ in their lower end. */
  lemma CoreAggRowsDisjoint(k: nat)
    requires 2 <= k
    ensures forall i, j, x, y ::
      0 <= i < j < |CoreAggRows(k)| && 0 <= x < |CoreAggRows(k)[i]| && 0 <= y < |CoreAggRows(k)[j]| ==>
        CoreAggRows(k)[i][x] != CoreAggRows(k)[j][y]
  {
    var rows := CoreAggRows(k);
    forall i, j, x, y | 0 <= i < j < |rows| && 0 <= x < |rows[i]| && 0 <= y < |rows[j]|
      ensures rows[i][x] != rows[j][y]
    {
      CoreAggRowsApart(k, i, j, rows[i][x], rows[j][y]);
    }
  }

  lemma CoreAggRowsApart(k: nat, i: nat, j: nat, l1: Link, l2: Link)
    requires 2 <= k && i < j < AggCount(k)
    requires l1 in CoreAggRows(k)[i] && l2 in CoreAggRows(k)[j]
    ensures l1 != l2
  {
    assert CoreAggRows(k)[i] == CoreAggRow(k, i) && CoreAggRows(k)[j] == CoreAggRow(k, j);
    assert l1.node1 == NodeName(AggLayer, i + 1) && l2.node1 == NodeName(AggLayer, j + 1);
    NodeNameInjective(AggLayer, i + 1, AggLayer, j + 1);
  }

  lemma CoreAggNoDups(k: nat)
    requires 2 <= k && k % 2 == 0
    ensures Pairing.NoDups(CoreAggLinks(k))
  {
    var rows := CoreAggRows(k);
    forall i | 0 <= i < |rows|
      ensures Pairing.NoDups(rows[i])
    {
      CoreAggRowNoDups(k, i);
    }
    CoreAggRowsDisjoint(k);
    FlattenNoDups(rows);
  }

  /** Inside a pod every aggregation switch is linked once to each edge
      switch. */
  lemma AggEdgePodNoDups(k: nat, pod: nat)
    requires k % 2 == 0 && pod < k
    ensures Pairing.NoDups(AggEdgePod(k, pod))
  {
    var rows := AggEdgePodRows(k, pod);
    forall x | 0 <= x < |rows|
      ensures Pairing.NoDups(rows[x])
    {
      AggEdgeRowNoDups(k, pod, x);
    }
    forall x, w, y, z | 0 <= x < w < |rows| && 0 <= y < |rows[x]| && 0 <= z < |rows[w]|
      ensures rows[x][y] != rows[w][z]
    {
      AggEdgeRowsApart(k, pod, x, w, y, z);
    }
    FlattenNoDups(rows);
  }

  /** An aggregation switch is linked to distinct edge switches. */
  lemma AggEdgeRowNoDups(k: nat, pod: nat, x: nat)
    requires k % 2 == 0 && pod < k && x < k / 2
    ensures Pairing.NoDups(AggEdgePodRows(k, pod)[x])
  {
    var row := AggEdgePodRows(k, pod)[x];
    forall y, z | 0 <= y < z < |row|
      ensures row[y] != row[z]
    {
      AggEdgeAt(k, pod, x, y);
      AggEdgeAt(k, pod, x, z);
      BlockMemberBounds(k, pod, y, k);
      BlockMemberBounds(k, pod, z, k);
      NodeNameInjective(EdgeLayer, BlockMember(k, pod, y) + 1, EdgeLayer, BlockMember(k, pod, z) + 1);
    }
  }

  /** Links of different aggregation switches of a pod differ in their upper
      end. */
  lemma AggEdgeRowsApart(k: nat, pod: nat, x: nat, w: nat, y: nat, z: nat)
    requires k % 2 == 0 && pod < k && x < w < k / 2 && y < k / 2 && z < k / 2
    ensures AggEdgePodRows(k, pod)[x][y] != AggEdgePodRows(k, pod)[w][z]
  {
    AggEdgeAt(k, pod, x, y);
    AggEdgeAt(k, pod, w, z);
    BlockMemberBounds(k, pod, x, k);
    BlockMemberBounds(k, pod, w, k);
    NodeNameInjective(AggLayer, BlockMember(k, pod, x) + 1, AggLayer, BlockMember(k, pod, w) + 1);
  }

  /** Every link of a pod starts at an aggregation switch of that pod. */
  lemma AggEdgePodSource(k: nat, pod: nat, l: Link) returns (a: nat)
    requires k % 2 == 0 && pod < k && l in AggEdgePod(k, pod)
    ensures l.node1 == NodeName(AggLayer, a + 1) && a / (k / 2) == pod
  {
    var x, y := AggEdgePodPosition(k, pod, l);
    AggEdgeAt(k, pod, x, y);
    BlockMemberBounds(k, pod, x, k);
    a := BlockMember(k, pod, x);
  }

  /** A link of a pod sits at some row and column of the pod. */
  lemma AggEdgePodPosition(k: nat, pod: nat, l: Link) returns (x: nat, y: nat)
    requires l in AggEdgePod(k, pod)
    ensures x < k / 2 && y < k / 2 && AggEdgePodRows(k, pod)[x][y] == l
  {
    FlattenMember(AggEdgePodRows(k, pod), l);
    x, y :| 0 <= x < |AggEdgePodRows(k, pod)| && 0 <= y < |AggEdgePodRows(k, pod)[x]| && AggEdgePodRows(k, pod)[x][y] == l;
  }

  lemma AggEdgeNoDups(k: nat)
    requires k % 2 == 0
    ensures Pairing.NoDups(AggEdgeLinks(k))
  {
    var pods := AggEdgePods(k);
    forall p | 0 <= p < |pods|
      ensures Pairing.NoDups(pods[p])
    {
      AggEdgePodNoDups(k, p);
    }
    forall p, q, m, n | 0 <= p < q < |pods| && 0 <= m < |pods[p]| && 0 <= n < |pods[q]|
      ensures pods[p][m] != pods[q][n]
    {
      var a1 := AggEdgePodSource(k, p, pods[p][m]);
      var a2 := AggEdgePodSource(k, q, pods[q][n]);
      NodeNameInjective(AggLayer, a1 + 1, AggLayer, a2 + 1);
    }
    FlattenNoDups(pods);
  }

  /** Each host is attached by its own link. */
  lemma EdgeHostNoDups(k: nat)
    requires 2 <= k && k % 2 == 0
    ensures Pairing.NoDups(EdgeHostLinks(k))
  {
    var links := EdgeHostLinks(k);
    EdgeHostCount(k);
    forall m, n | 0 <= m < n < |links|
      ensures links[m] != links[n]
    {
      HostLinksTouch(k, m, m);
      HostLinksTouch(k, n, m);
    }
  }

  /** An uplink ends at a core switch, an aggregation-to-edge link at an edge
      switch. */
  lemma CoreAggNotAggEdge(k: nat, l1: Link, l2: Link)
    requires 2 <= k && l1 in CoreAggLinks(k) && l2 in AggEdgeLinks(k)
    ensures l1 != l2
  {
    FlattenMember(CoreAggRows(k), l1);
    var j, x :| 0 <= j < |CoreAggRows(k)| && 0 <= x < |CoreAggRows(k)[j]| && CoreAggRows(k)[j][x] == l1;
    CoreAggAt(k, j, x);
    var pod, x', y := AggEdgeMember(k, l2);
    AggEdgeAt(k, pod, x', y);
    NodeNameInjective(CoreLayer, BlockMember(k, j % (k / 2), x) + 1, EdgeLayer, BlockMember(k, pod, y) + 1);
  }

  /** The builder never adds the same link twice. */
  lemma FatTreeLinksNoDups(k: nat)
    requires 2 <= k && k % 2 == 0
    ensures Pairing.NoDups(FatTreeLinks(k))
  {
    var ca, ae, eh := CoreAggLinks(k), AggEdgeLinks(k), EdgeHostLinks(k);
    CoreAggNoDups(k);
    AggEdgeNoDups(k);
    EdgeHostNoDups(k);
    forall p, q | 0 <= p < |ca| && 0 <= q < |ae|
      ensures ca[p] != ae[q]
    {
      CoreAggNotAggEdge(k, ca[p], ae[q]);
    }
    Pairing.NoDupsAppend(ca, ae);
    var switches := ca + ae;
    EdgeHostCount(k);
    forall p, q | 0 <= p < |switches| && 0 <= q < |eh|
      ensures switches[p] != eh[q]
    {
      assert FatTreeLinks(k)[p] == switches[p];
      SwitchLinkAvoidsHosts(k, p, q);
      HostLinksTouch(k, q, q);
    }
    Pairing.NoDupsAppend(switches, eh);
  }
  /** The three kinds of fat-tree link, told apart by the layer digits that
      open their two names: aggregation to core and aggregation to edge with
      bandwidth and delay, edge to host with bandwidth only. */
  predicate StageShaped(l: Link)
  {
    |l.node1| > 0 && |l.node2| > 0 &&
    ((l.node1[0] == AggLayer && l.node2[0] == CoreLayer && l.bw == LinkBw && l.delay == LinkDelay) ||
     (l.node1[0] == AggLayer && l.node2[0] == EdgeLayer && l.bw == LinkBw && l.delay == LinkDelay) ||
     (l.node1[0] == EdgeLayer && l.node2[0] == HostLayer && l.bw == LinkBw && l.delay == None))
  }

  /** Two links that join the same two nodes, in either direction. */
  predicate SameEnds(l1: Link, l2: Link)
  {
    (l1.node1 == l2.node1 && l1.node2 == l2.node2) || (l1.node1 == l2.node2 && l1.node2 == l2.node1)
  }

  /** Every link of the fat tree has one of the three stage shapes. */
  lemma LinkShaped(k: nat, n: nat)
    requires 2 <= k && k % 2 == 0 && n < |FatTreeLinks(k)|
    ensures StageShaped(FatTreeLinks(k)[n])
  {
    var ca, ae, eh := CoreAggLinks(k), AggEdgeLinks(k), EdgeHostLinks(k);
    var l := FatTreeLinks(k)[n];
    if n < |ca| {
      assert l == ca[n];
      FlattenMember(CoreAggRows(k), l);
      var j, x :| 0 <= j < |CoreAggRows(k)| && 0 <= x < |CoreAggRows(k)[j]| && CoreAggRows(k)[j][x] == l;
      CoreAggAt(k, j, x);
    } else if n < |ca| + |ae| {
      assert l == ae[n - |ca|];
      var pod, x, y := AggEdgeMember(k, l);
      AggEdgeAt(k, pod, x, y);
    } else {
      assert l == eh[n - |ca| - |ae|];
      EdgeHostCount(k);
      EdgeHostLinkAt(k, n - |ca| - |ae|);
    }
  }

  /** No two links of the fat tree join the same two nodes, in either order. */
  lemma FatTreeLinksDistinctEnds(k: nat, m: nat, n: nat)
    requires 2 <= k && k % 2 == 0 && m < n < |FatTreeLinks(k)|
    ensures !SameEnds(FatTreeLinks(k)[m], FatTreeLinks(k)[n])
  {
    FatTreeLinksNoDups(k);
    LinkShaped(k, m);
    LinkShaped(k, n);
  }
}
