/** The hypercube example: `difer`, the fixed four-switch ring `MyTopo`, the
    `Hypercube` topology on `2 ** a` switches, and the pairing `simpleTest`
    draws over its host indices. The dimension `a`, a module global there,
    is a parameter here. */
module Hyper {
  import opened Topology
  import opened Pairing
  import opened Stage
  import opened Bits
  import Decimal

  // ---------------------------------------------------------------------------
  // difer

  /** `difer(x, y, a)`: compares the low bits of `x` and `y` while halving
      both, `a` times, and counts the positions where they differ. */
  method Difer(x: int, y: int, a: nat) returns (cnt: int)
    ensures cnt == Hamming(x, y, a)
    ensures 0 <= cnt <= a
  {
    cnt := 0;
    var xs, ys := x, y;
    for j := 0 to a
      invariant xs == Shift(x, j) && ys == Shift(y, j)
      invariant cnt == Hamming(x, y, j)
    {
      if xs % 2 != ys % 2 {
        cnt := cnt + 1;
      }
      ShiftStep(x, j);
      ShiftStep(y, j);
      xs := xs / 2;
      ys := ys / 2;
    }
  }

  // ---------------------------------------------------------------------------
  // Node names

  /** `'s%d' % i` and `'h%d' % i`. */
  function NodeName(prefix: char, i: nat): string
  {
    [prefix] + Decimal.Str(i)
  }

  /** The names of nodes `0 .. count-1`. */
  function Names(prefix: char, count: nat): seq<string>
  {
    seq(count, i requires 0 <= i => NodeName(prefix, i))
  }

  /** Distinct numbers with the same prefix give distinct names. */
  lemma NodeNameInjective(p: char, q: char, i: nat, j: nat)
    ensures NodeName(p, i) == NodeName(q, j) <==> p == q && i == j
  {
    if NodeName(p, i) == NodeName(q, j) {
      assert p == NodeName(p, i)[0];
      assert Decimal.Str(i) == NodeName(p, i)[1..] && Decimal.Str(j) == NodeName(q, j)[1..];
      Decimal.StrInjective(i, j);
    }
  }

  // ---------------------------------------------------------------------------
  // MyTopo

  /** The links `MyTopo` adds, in order: each host to its switch, and the
      switches `s1 - s2 - s3 - s4 - s1` in a ring. */
  function MyTopoLinks(): seq<Link>
  {
    [ Link("h1", "s1", None, None), Link("s1", "s2", None, None), Link("s4", "h4", None, None),
      Link("s2", "h2", None, None), Link("s4", "s3", None, None), Link("s2", "s3", None, None),
      Link("s3", "h3", None, None), Link("s4", "s1", None, None) ]
  }

  /** `MyTopo()`: four hosts, four switches and eight links. */
  class MyTopo {
    const topo: Topo

    constructor ()
      ensures fresh(topo)
      ensures topo.hosts == ["h1", "h2", "h3", "h4"] && topo.switches == ["s1", "s2", "s3", "s4"]
      ensures topo.links == MyTopoLinks()
    {
      topo := new Topo();
      new;
      var leftHost := topo.AddHost("h1");
      var rightHost := topo.AddHost("h2");
      var downHost := topo.AddHost("h3");
      var upHost := topo.AddHost("h4");
      var leftSwitch := topo.AddSwitch("s1");
      var rightSwitch := topo.AddSwitch("s2");
      var downSwitch := topo.AddSwitch("s3");
      var upSwitch := topo.AddSwitch("s4");
      ghost var row := MyTopoLinks();
      topo.AddRowLink([], row, 0, leftHost, leftSwitch, None, None);
      topo.AddRowLink([], row, 1, leftSwitch, rightSwitch, None, None);
      topo.AddRowLink([], row, 2, upSwitch, upHost, None, None);
      topo.AddRowLink([], row, 3, rightSwitch, rightHost, None, None);
      topo.AddRowLink([], row, 4, upSwitch, downSwitch, None, None);
      topo.AddRowLink([], row, 5, rightSwitch, downSwitch, None, None);
      topo.AddRowLink([], row, 6, downSwitch, downHost, None, None);
      topo.AddRowLink([], row, 7, upSwitch, leftSwitch, None, None);
      TakeAll(row);
    }
  }

  /** Switches and hosts of `MyTopo`. */
  predicate IsMyTopoSwitch(name: string)
  {
    name in ["s1", "s2", "s3", "s4"]
  }

  /** The link of `MyTopo` that attaches host `i`, for `i` in 1 .. 4. */
  function MyTopoHostLink(i: nat): nat
    requires 1 <= i <= 4
  {
    [0, 3, 6, 2][i - 1]
  }

  /** Host `hi` of `MyTopo` is on exactly one link, and that link goes to
      switch `si`. */
  lemma MyTopoHostAttached(i: nat)
    requires 1 <= i <= 4
    ensures var links := MyTopoLinks();
      && links[MyTopoHostLink(i)].Touches(NodeName('s', i))
      && forall m :: 0 <= m < |links| ==> (links[m].Touches(NodeName('h', i)) <==> m == MyTopoHostLink(i))
  {
    assert NodeName('s', i) == ['s', ('0' as int + i) as char];
    assert NodeName('h', i) == ['h', ('0' as int + i) as char];
  }

  /** The switch-to-switch links of `MyTopo`, as unordered pairs, are the
      ring `s1 - s2 - s3 - s4 - s1`. */
  lemma MyTopoRing()
    ensures var links := MyTopoLinks();
      (set m | 0 <= m < |links| && IsMyTopoSwitch(links[m].node1) && IsMyTopoSwitch(links[m].node2)
         :: {links[m].node1, links[m].node2})
      == {{"s1", "s2"}, {"s2", "s3"}, {"s3", "s4"}, {"s4", "s1"}}
  {
    var links := MyTopoLinks();
    var ring := set m | 0 <= m < |links| && IsMyTopoSwitch(links[m].node1) && IsMyTopoSwitch(links[m].node2)
      :: {links[m].node1, links[m].node2};
    assert {"s1", "s2"} == {links[1].node1, links[1].node2};
    assert {"s3", "s4"} == {links[4].node1, links[4].node2};
    assert {"s2", "s3"} == {links[5].node1, links[5].node2};
    assert {"s4", "s1"} == {links[7].node1, links[7].node2};
    forall e | e in ring
      ensures e in {{"s1", "s2"}, {"s2", "s3"}, {"s3", "s4"}, {"s4", "s1"}}
    {
      var m :| 0 <= m < |links| && IsMyTopoSwitch(links[m].node1) && IsMyTopoSwitch(links[m].node2)
        && e == {links[m].node1, links[m].node2};
      MyTopoSwitchLink(m);
    }
  }

  /** The links of `MyTopo` between two switches are links 1, 4, 5 and 7. */
  lemma MyTopoSwitchLink(m: nat)
    requires m < |MyTopoLinks()|
    requires IsMyTopoSwitch(MyTopoLinks()[m].node1) && IsMyTopoSwitch(MyTopoLinks()[m].node2)
    ensures m == 1 || m == 4 || m == 5 || m == 7
  {
  }

  // ---------------------------------------------------------------------------
  // Hypercube

  /** The host links: switch `i` to host `i`. */
  function HostLinks(n: nat): seq<Link>
  {
    seq(n, i requires 0 <= i => Link(NodeName('s', i), NodeName('h', i), None, None))
  }

  /** The links the inner loop adds for switch `i` while `j` runs from `i + 1`
      up to `last - 1`: one to every switch `j` at distance 1 from `i`. */
  function SwitchRow(a: nat, i: nat, last: nat): seq<Link>
    decreases last
  {
    if last <= i + 1 then
      []
    else
      var link := Link(NodeName('s', i), NodeName('s', last - 1), None, None);
      SwitchRow(a, i, last - 1) + (if Hamming(i, last - 1, a) == 1 then [link] else [])
  }

  /** One row per switch `i` in `0 .. n-2`. */
  function SwitchRows(a: nat): seq<seq<Link>>
  {
    seq(Pow2(a) - 1, i requires 0 <= i => SwitchRow(a, i, Pow2(a)))
  }

  /** All switch-to-switch links, row after row. */
  function SwitchLinks(a: nat): seq<Link>
  {
    Flatten(SwitchRows(a))
  }

  /** What `Hypercube()` hands to the emulator. */
  function HypercubeLinks(a: nat): seq<Link>
  {
    HostLinks(Pow2(a)) + SwitchLinks(a)
  }

  /** `Hypercube()`: `2 ** a` switches and hosts, switch `i` linked to host
      `i`, and two switches linked when `difer` finds their indices one bit
      apart. */
  class Hypercube {
    const a: nat
    const topo: Topo

    constructor (a: nat)
      ensures this.a == a && fresh(topo)
      ensures topo.switches == Names('s', Pow2(a)) && topo.hosts == Names('h', Pow2(a))
      ensures topo.links == HypercubeLinks(a)
    {
      this.a := a;
      topo := new Topo();
      new;
      var n := Pow2(a);
      var switch, host := [], [];
      for i := 0 to n
        invariant switch == topo.switches == Names('s', i)
        invariant host == topo.hosts == Names('h', i)
        invariant topo.links == []
      {
        var s := topo.AddSwitch(NodeName('s', i));
        switch := switch + [s];
        var h := topo.AddHost(NodeName('h', i));
        host := host + [h];
      }
      for i := 0 to n
        invariant topo.switches == Names('s', n) && topo.hosts == Names('h', n)
        invariant topo.links == HostLinks(i)
      {
        topo.AddLink(switch[i], host[i], None, None);
        assert HostLinks(i + 1) == HostLinks(i) + [Link(switch[i], host[i], None, None)];
      }
      for i := 0 to n - 1
        invariant topo.switches == Names('s', n) && topo.hosts == Names('h', n)
        invariant topo.links == HostLinks(n) + Flatten(SwitchRows(a)[..i])
      {
        LinkSwitchRow(switch, i, HostLinks(n));
      }
      TakeAll(SwitchRows(a));
    }

    /** The inner loop for switch `i`: `for j in range(i+1, n)`, a link to
        every switch `j` with `difer(i, j, a) == 1`. */
    method LinkSwitchRow(switch: seq<string>, i: nat, ghost start: seq<Link>)
      requires switch == Names('s', Pow2(a)) && i < Pow2(a) - 1
      requires topo.links == start + Flatten(SwitchRows(a)[..i])
      modifies topo`links
      ensures topo.links == start + Flatten(SwitchRows(a)[..i + 1])
    {
      ghost var before := topo.links;
      for j := i + 1 to Pow2(a)
        invariant topo.links == before + SwitchRow(a, i, j)
      {
        var d := Difer(i, j, a);
        if d == 1 {
          topo.AddLink(switch[i], switch[j], None, None);
        }
      }
      assert SwitchRows(a)[i] == SwitchRow(a, i, Pow2(a));
      FlattenAppend(start, SwitchRows(a), i);
    }
  }

  /** The links of a row are the links from `i` to the switches `y` between
      `i` and `last` at distance 1. */
  lemma {:induction false} SwitchRowMember(a: nat, i: nat, last: nat, l: Link)
    ensures l in SwitchRow(a, i, last) <==>
      exists y: nat :: i < y < last && Hamming(i, y, a) == 1 && l == Link(NodeName('s', i), NodeName('s', y), None, None)
    decreases last
  {
    if last > i + 1 {
      SwitchRowMember(a, i, last - 1, l);
    }
  }

  /** Every switch link joins some switch `x` to a switch `y > x` at
      distance 1: no switch is linked to itself, and no pair is linked in
      both directions. */
  lemma SwitchLinkShape(a: nat, l: Link)
    requires l in SwitchLinks(a)
    ensures exists x: nat, y: nat ::
      x < y < Pow2(a) && Hamming(x, y, a) == 1 && l == Link(NodeName('s', x), NodeName('s', y), None, None)
  {
    FlattenMember(SwitchRows(a), l);
    var i, j :| 0 <= i < |SwitchRows(a)| && 0 <= j < |SwitchRows(a)[i]| && SwitchRows(a)[i][j] == l;
    assert l in SwitchRow(a, i, Pow2(a));
    SwitchRowMember(a, i, Pow2(a), l);
  }

  /** Switches `x` and `y` are linked, in the order `x`, `y`, exactly when
      `x < y < 2 ** a` and their indices are one bit apart. */
  lemma SwitchLinked(a: nat, x: nat, y: nat)
    ensures Link(NodeName('s', x), NodeName('s', y), None, None) in SwitchLinks(a)
      <==> x < y < Pow2(a) && Hamming(x, y, a) == 1
  {
    if Link(NodeName('s', x), NodeName('s', y), None, None) in SwitchLinks(a) {
      SwitchLinkedOnly(a, x, y);
    }
    if x < y < Pow2(a) && Hamming(x, y, a) == 1 {
      SwitchLinkedAll(a, x, y);
    }
  }

  lemma SwitchLinkedOnly(a: nat, x: nat, y: nat)
    requires Link(NodeName('s', x), NodeName('s', y), None, None) in SwitchLinks(a)
    ensures x < y < Pow2(a) && Hamming(x, y, a) == 1
  {
    var l := Link(NodeName('s', x), NodeName('s', y), None, None);
    SwitchLinkShape(a, l);
    var x': nat, y': nat :| x' < y' < Pow2(a) && Hamming(x', y', a) == 1
      && l == Link(NodeName('s', x'), NodeName('s', y'), None, None);
    NodeNameInjective('s', 's', x, x');
    NodeNameInjective('s', 's', y, y');
  }

  lemma SwitchLinkedAll(a: nat, x: nat, y: nat)
    requires x < y < Pow2(a) && Hamming(x, y, a) == 1
    ensures Link(NodeName('s', x), NodeName('s', y), None, None) in SwitchLinks(a)
  {
    var l := Link(NodeName('s', x), NodeName('s', y), None, None);
    SwitchRowMember(a, x, Pow2(a), l);
    assert SwitchRows(a)[x] == SwitchRow(a, x, Pow2(a));
    FlattenContains(SwitchRows(a), x, l);
  }

  /** Every link of row `i` starts at switch `i`. */
  lemma SwitchRowSource(a: nat, i: nat, last: nat, l: Link)
    requires l in SwitchRow(a, i, last)
    ensures l.node1 == NodeName('s', i)
  {
    SwitchRowMember(a, i, last, l);
  }

  /** A row links switch `i` to each of its switches at most once. */
  lemma {:induction false} SwitchRowNoDups(a: nat, i: nat, last: nat)
    ensures NoDups(SwitchRow(a, i, last))
    decreases last
  {
    if last > i + 1 {
      var before := SwitchRow(a, i, last - 1);
      var link := Link(NodeName('s', i), NodeName('s', last - 1), None, None);
      SwitchRowNoDups(a, i, last - 1);
      forall p | 0 <= p < |before|
        ensures before[p] != link
      {
        SwitchRowMember(a, i, last - 1, before[p]);
        var y: nat :| i < y < last - 1 && Hamming(i, y, a) == 1
          && before[p] == Link(NodeName('s', i), NodeName('s', y), None, None);
        NodeNameInjective('s', 's', y, last - 1);
      }
      NoDupsAppend(before, if Hamming(i, last - 1, a) == 1 then [link] else []);
    }
  }

  /** No switch-to-switch link is added twice. */
  lemma SwitchLinksNoDups(a: nat)
    ensures NoDups(SwitchLinks(a))
  {
    var rows := SwitchRows(a);
    forall i | 0 <= i < |rows|
      ensures NoDups(rows[i])
    {
      SwitchRowNoDups(a, i, Pow2(a));
    }
    forall i, j, x, y | 0 <= i < j < |rows| && 0 <= x < |rows[i]| && 0 <= y < |rows[j]|
      ensures rows[i][x] != rows[j][y]
    {
      SwitchRowSource(a, i, Pow2(a), rows[i][x]);
      SwitchRowSource(a, j, Pow2(a), rows[j][y]);
      NodeNameInjective('s', 's', i, j);
    }
    FlattenNoDups(rows);
  }

  /** No link of the hypercube is added twice: the host links end at hosts,
      the switch links at switches. */
  lemma HypercubeLinksNoDups(a: nat)
    ensures NoDups(HypercubeLinks(a))
  {
    var hosts, switches := HostLinks(Pow2(a)), SwitchLinks(a);
    forall i, j | 0 <= i < j < |hosts|
      ensures hosts[i] != hosts[j]
    {
      NodeNameInjective('s', 's', i, j);
    }
    SwitchLinksNoDups(a);
    forall i, j | 0 <= i < |hosts| && 0 <= j < |switches|
      ensures hosts[i] != switches[j]
    {
      SwitchLinkShape(a, switches[j]);
      var x: nat, y: nat :| x < y < Pow2(a) && Hamming(x, y, a) == 1
        && switches[j] == Link(NodeName('s', x), NodeName('s', y), None, None);
      NodeNameInjective('h', 's', i, y);
    }
    NoDupsAppend(hosts, switches);
  }

  /** Switches linked to switch `x`, in either order. */
  function LinkedSwitches(a: nat, x: nat): set<int>
  {
    set y: nat | y < Pow2(a)
      && (Link(NodeName('s', x), NodeName('s', y), None, None) in SwitchLinks(a)
          || Link(NodeName('s', y), NodeName('s', x), None, None) in SwitchLinks(a))
  }

  /** Every switch of the hypercube is linked to exactly `a` switches: its
      `a` neighbours at distance 1. */
  lemma SwitchDegree(a: nat, x: nat)
    requires x < Pow2(a)
    ensures LinkedSwitches(a, x) == Neighbours(x, a)
    ensures |LinkedSwitches(a, x)| == a
  {
    forall y | y in LinkedSwitches(a, x)
      ensures y in Neighbours(x, a)
    {
      SwitchLinked(a, x, y);
      SwitchLinked(a, y, x);
      HammingSymmetric(y, x, a);
    }
    forall y | y in Neighbours(x, a)
      ensures y in LinkedSwitches(a, x)
    {
      SwitchLinked(a, x, y);
      SwitchLinked(a, y, x);
      HammingSymmetric(y, x, a);
      HammingSelf(x, a);
    }
    Degree(x, a);
  }

  /** Row `i` holds one link per neighbour of `i` above `i`. */
  lemma {:induction false} SwitchRowLength(a: nat, i: nat, last: nat)
    ensures |SwitchRow(a, i, last)| == |UpNeighbours(i, a, last)|
    decreases last
  {
    if last <= i + 1 {
      assert UpNeighbours(i, a, last) == {};
    } else {
      SwitchRowLength(a, i, last - 1);
      UpNeighboursStep(i, a, last);
    }
  }

  lemma UpNeighboursStep(i: nat, a: nat, last: nat)
    requires i + 1 < last
    ensures |UpNeighbours(i, a, last)| == |UpNeighbours(i, a, last - 1)| + (if Hamming(i, last - 1, a) == 1 then 1 else 0)
  {
    var prev := UpNeighbours(i, a, last - 1);
    assert last - 1 !in prev;
    if Hamming(i, last - 1, a) == 1 {
      assert UpNeighbours(i, a, last) == prev + {last - 1};
    } else {
      assert UpNeighbours(i, a, last) == prev;
    }
  }

  /** The first `m` rows hold the zero bits of `0 .. m-1`. */
  lemma {:induction false} SwitchRowsLength(a: nat, m: nat)
    requires m <= Pow2(a) - 1
    ensures |Flatten(SwitchRows(a)[..m])| == ZeroSum(a, 0, m)
  {
    if m > 0 {
      SwitchRowsLength(a, m - 1);
      FlattenStep(SwitchRows(a), m - 1);
      assert SwitchRows(a)[m - 1] == SwitchRow(a, m - 1, Pow2(a));
      SwitchRowLength(a, m - 1, Pow2(a));
      UpNeighboursCount(m - 1, a);
    }
  }

  /** The hypercube has `a * 2 ** (a - 1)` switch-to-switch links. */
  lemma SwitchLinksCount(a: nat)
    ensures 2 * |SwitchLinks(a)| == a * Pow2(a)
  {
    var n := Pow2(a);
    var rows := SwitchRows(a);
    SwitchRowsLength(a, n - 1);
    assert |rows| == n - 1;
    TakeAll(rows);
    assert |SwitchLinks(a)| == ZeroSum(a, 0, n - 1);
    LastRowEmpty(a);
    ZeroTotal(a);
  }

  /** The last switch, all ones, adds no zero bits to the sum. */
  lemma LastRowEmpty(a: nat)
    ensures ZeroSum(a, 0, Pow2(a)) == ZeroSum(a, 0, Pow2(a) - 1)
  {
    AllOnes(a, a);
    assert Zeros(0 + Pow2(a) - 1, a) == 0;
  }

  /** Host `i` hangs off switch `i` by link `i`, and no other link touches
      it. */
  lemma HostAttachment(a: nat, i: nat)
    requires i < Pow2(a)
    ensures HypercubeLinks(a)[i] == Link(NodeName('s', i), NodeName('h', i), None, None)
    ensures forall m :: 0 <= m < |HypercubeLinks(a)| && HypercubeLinks(a)[m].Touches(NodeName('h', i)) ==> m == i
  {
    var n := Pow2(a);
    var links := HypercubeLinks(a);
    forall m | 0 <= m < |links| && links[m].Touches(NodeName('h', i))
      ensures m == i
    {
      if m < n {
        NodeNameInjective('s', 'h', m, i);
        NodeNameInjective('h', 'h', m, i);
      } else {
        var l := links[m];
        assert l == SwitchLinks(a)[m - n];
        SwitchLinkShape(a, l);
        var x: nat, y: nat :| x < y < Pow2(a) && Hamming(x, y, a) == 1
          && l == Link(NodeName('s', x), NodeName('s', y), None, None);
        NodeNameInjective('s', 'h', x, i);
        NodeNameInjective('s', 'h', y, i);
        assert false;
      }
    }
  }

  // ---------------------------------------------------------------------------
  // simpleTest: pairs over range(0, n)

  /** How the `while seq:` pairing can end: with the dict, or, when one index
      is left, in a retry loop that keeps drawing that index as its own
      partner. */
  datatype DictOutcome = Dict(d: map<int, int>) | RetriesForever

  /** `while seq:` over `range(0, n)`: draws a key and a different value,
      records `dict[x] = y`, and removes both from the pool. For even `n`
      the dict pairs up all of `0 .. n-1`; for odd `n` the last index never
      finds a partner. */
  method PairRange(n: nat) returns (r: DictOutcome)
    ensures r.RetriesForever? <==> n % 2 == 1
    ensures r.Dict? ==> IsPairDict(r.d) && |r.d| == n / 2
    ensures r.Dict? ==> forall c :: c in r.d ==> 0 <= c < n && 0 <= r.d[c] < n
    ensures r.Dict? ==> forall x :: 0 <= x < n ==> x in r.d || x in r.d.Values
  {
    var pool := Range(0, n);
    var d := map[];
    while |pool| > 0
      invariant DictPool(0, n, pool, d)
      invariant |pool| + 2 * |d| == n
      decreases |pool|
    {
      if |pool| == 1 {
        PoolParity(n, |d|, 1);
        return RetriesForever;
      }
      var x, y;
      x, y, pool, d := RangeRound(n, pool, d);
    }
    PoolParity(n, |d|, 0);
    RangeDone(n, pool, d);
    return Dict(d);
  }

  /** With the pool empty, every index of `0 .. n-1` is a key or a value. */
  lemma RangeDone(n: nat, pool: seq<int>, d: map<int, int>)
    requires DictPool(0, n, pool, d) && |pool| == 0
    ensures forall x :: 0 <= x < n ==> x in d || x in d.Values
  {
    forall x | 0 <= x < n
      ensures x in d || x in d.Values
    {
      assert x !in pool;
    }
  }

  /** One round of `while seq:`: `dict[x] = y`, then `seq.remove(x)` and
      `seq.remove(y)`. The key is new, so no entry is overwritten. */
  method RangeRound(n: nat, pool: seq<int>, d: map<int, int>)
    returns (x: int, y: int, rest: seq<int>, e: map<int, int>)
    requires 2 <= |pool| && DictPool(0, n, pool, d)
    ensures x in pool && y in pool && x != y
    ensures x !in d && e == d[x := y]
    ensures rest == RemoveBoth(pool, x, y)
    ensures DictPool(0, n, rest, e)
  {
    x, y := ChooseDistinct(pool);
    e := d[x := y];
    MapUpdateValues(d, x, y);
    RemoveFirstNoDups(pool, x);
    rest := RemoveFirst(pool, x);
    RemoveFirstNoDups(rest, y);
    rest := RemoveFirst(rest, y);
  }

  /** The host names `'h%d' % i` of a list of indices. */
  function HostNames(xs: seq<int>): (r: seq<string>)
    requires forall i :: 0 <= i < |xs| ==> 0 <= xs[i]
    ensures |r| == |xs|
  {
    seq(|xs|, i requires 0 <= i < |xs| => NodeName('h', xs[i]))
  }

  /** Naming a matching of host indices gives a matching of host names. */
  lemma NamedMatching(servers: seq<int>, clients: seq<int>)
    requires IsMatching(servers, clients)
    requires forall i :: 0 <= i < |clients| ==> 0 <= servers[i] && 0 <= clients[i]
    ensures IsMatching(HostNames(servers), HostNames(clients))
  {
    var s, c := HostNames(servers), HostNames(clients);
    forall i, j | 0 <= i < |s| && 0 <= j < |s|
      ensures s[i] == s[j] ==> servers[i] == servers[j]
      ensures c[i] == c[j] ==> clients[i] == clients[j]
      ensures s[i] == c[j] ==> servers[i] == clients[j]
    {
      NodeNameInjective('h', 'h', servers[i], servers[j]);
      NodeNameInjective('h', 'h', clients[i], clients[j]);
      NodeNameInjective('h', 'h', servers[i], clients[j]);
    }
  }

  /** How `simpleTest` can end up: with its server and client host lists and
      the iperf clients it starts, or retrying forever (`a == 0`). */
  datatype TestOutcome = Lists(servers: seq<string>, clients: seq<string>, launches: seq<Launch>) | Stuck

  /** The test duration `-t 10` of the iperf clients `simpleTest` starts. */
  const SimpleTestDuration := 10

  /** `simpleTest` without the emulator: pairs up the host indices of the
      `2 ** a`-node hypercube, names the keys as clients and the values as
      servers, and starts client `i` against server `i` for `i < n/2`. */
  method SimpleTest(a: nat) returns (r: TestOutcome)
    ensures r.Stuck? <==> a == 0
    ensures r.Lists? ==> 1 <= a && |r.servers| == |r.clients| == Pow2(a - 1) == Pow2(a) / 2
    ensures r.Lists? ==> IsMatching(r.servers, r.clients)
    ensures r.Lists? ==> forall i :: 0 <= i < |r.clients| ==> r.clients[i] in Names('h', Pow2(a)) && r.servers[i] in Names('h', Pow2(a))
    ensures r.Lists? ==> forall h :: h in Names('h', Pow2(a)) ==> h in r.servers || h in r.clients
    ensures r.Lists? ==> |r.launches| == Pow2(a) / 2
    ensures r.Lists? ==> forall i :: 0 <= i < |r.launches| ==> r.launches[i] == Launch(r.clients[i], r.servers[i], SimpleTestDuration)
  {
    var n := Pow2(a);
    Pow2Half(a);
    var outcome := PairRange(n);
    if outcome.RetriesForever? {
      return Stuck;
    }
    var servers, clients := NamedPairs(n, outcome.d);
    var launches := IperfClients(servers, clients, n / 2);
    return Lists(servers, clients, launches);
  }

  /** `for i in range(0, n/2)`: client `i` runs iperf against server `i`. */
  method IperfClients(servers: seq<string>, clients: seq<string>, count: nat) returns (launches: seq<Launch>)
    requires count <= |clients| && count <= |servers|
    ensures |launches| == count
    ensures forall i :: 0 <= i < count ==> launches[i] == Launch(clients[i], servers[i], SimpleTestDuration)
  {
    launches := [];
    for i := 0 to count
      invariant |launches| == i
      invariant forall j :: 0 <= j < i ==> launches[j] == Launch(clients[j], servers[j], SimpleTestDuration)
    {
      launches := launches + [Launch(clients[i], servers[i], SimpleTestDuration)];
    }
  }

  /** `[... 'h%d' % (i) for i in dict.keys()]` and the same for
      `dict.values()`: for a dict that pairs up `0 .. n-1`, a matching of host
      names that lists each host of `0 .. n-1` once. */
  method NamedPairs(n: nat, d: map<int, int>) returns (servers: seq<string>, clients: seq<string>)
    requires IsPairDict(d)
    requires forall c :: c in d ==> 0 <= c < n && 0 <= d[c] < n
    requires forall x :: 0 <= x < n ==> x in d || x in d.Values
    ensures |servers| == |clients| == |d|
    ensures IsMatching(servers, clients)
    ensures forall i :: 0 <= i < |clients| ==> clients[i] in Names('h', n) && servers[i] in Names('h', n)
    ensures forall h :: h in Names('h', n) ==> h in servers || h in clients
  {
    var values, keys := PairDictLists(d);
    forall i | 0 <= i < |keys|
      ensures 0 <= keys[i] < n && 0 <= values[i] < n
    {
      assert keys[i] in d && values[i] == d[keys[i]];
    }
    forall x | 0 <= x < n
      ensures x in keys || x in values
    {
      assert x in d || x in d.Values;
    }
    clients := HostNames(keys);
    servers := HostNames(values);
    NamedMatching(values, keys);
    NamesCovered(n, values, keys);
  }

  /** Named lists of indices that cover `0 .. n-1` cover the names of
      `0 .. n-1`. */
  lemma NamesCovered(n: nat, values: seq<int>, keys: seq<int>)
    requires |keys| == |values|
    requires forall i :: 0 <= i < |keys| ==> 0 <= keys[i] < n && 0 <= values[i] < n
    requires forall x :: 0 <= x < n ==> x in keys || x in values
    ensures forall i :: 0 <= i < |keys| ==> HostNames(keys)[i] in Names('h', n) && HostNames(values)[i] in Names('h', n)
    ensures forall h :: h in Names('h', n) ==> h in HostNames(values) || h in HostNames(keys)
  {
    forall i | 0 <= i < |keys|
      ensures HostNames(keys)[i] in Names('h', n) && HostNames(values)[i] in Names('h', n)
    {
      assert Names('h', n)[keys[i]] == HostNames(keys)[i];
      assert Names('h', n)[values[i]] == HostNames(values)[i];
    }
    forall h | h in Names('h', n)
      ensures h in HostNames(values) || h in HostNames(keys)
    {
      var x :| 0 <= x < n && Names('h', n)[x] == h;
      if x in keys {
        var i :| 0 <= i < |keys| && keys[i] == x;
        assert HostNames(keys)[i] == h;
      } else {
        var i :| 0 <= i < |values| && values[i] == x;
        assert HostNames(values)[i] == h;
      }
    }
  }
}
