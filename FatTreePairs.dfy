/** The client/server pairings the fat-tree experiment draws over host
    indices (positions in `hostList`), and the launch plans of its same-pod
    and different-pod measurement stages. */
module FatTreePairs {
  import opened Pairing
  import opened Stage
  import opened Arith
  import FatTree

  // ---------------------------------------------------------------------------
  // generateUniformClientServerPairs

  /** How `generateUniformClientServerPairs` can end. */
  datatype UniformOutcome =
    | Pairs(servers: seq<int>, clients: seq<int>)
      // `random.choice` on an empty pool raises IndexError
    | PoolExhausted
      // one host left: the retry loop keeps drawing the server as the client
    | RetriesForever

  /** Draws `numberOfPairs` server/client pairs from the host indices
      `0 .. hostCount-1`, removing both ends of every pair from the pool. It
      returns pairs exactly when the pool is large enough; otherwise the pool
      runs dry, with an error when the host count is even and a retry loop
      that never ends when it is odd. */
  method GenerateUniformClientServerPairs(hostCount: nat, numberOfPairs: int) returns (r: UniformOutcome)
    ensures r.Pairs? <==> 2 * numberOfPairs <= hostCount
    ensures r.PoolExhausted? <==> 2 * numberOfPairs > hostCount && hostCount % 2 == 0
    ensures r.RetriesForever? <==> 2 * numberOfPairs > hostCount && hostCount % 2 == 1
    ensures r.Pairs? ==> |r.clients| == (if numberOfPairs < 0 then 0 else numberOfPairs)
    ensures r.Pairs? ==> IsMatching(r.servers, r.clients)
    ensures r.Pairs? ==> forall i :: 0 <= i < |r.clients| ==> 0 <= r.servers[i] < hostCount && 0 <= r.clients[i] < hostCount
    ensures r.Pairs? && 2 * numberOfPairs == hostCount ==> forall x :: 0 <= x < hostCount ==> x in r.servers || x in r.clients
  {
    var clients, servers := [], [];
    var hostSet := Range(0, hostCount);
    ghost var all := hostSet;
    while |clients| < numberOfPairs
      invariant 2 * |clients| + |hostSet| == hostCount
      invariant numberOfPairs < 0 ==> |clients| == 0
      invariant 0 <= numberOfPairs ==> |clients| <= numberOfPairs
      invariant Drawn(all, servers, clients, hostSet)
      decreases numberOfPairs - |clients|
    {
      if |hostSet| == 0 {
        PoolParity(hostCount, |clients|, 0);
        assert 2 * numberOfPairs > hostCount && hostCount % 2 == 0;
        return PoolExhausted;
      }
      if |hostSet| == 1 {
        PoolParity(hostCount, |clients|, 1);
        assert 2 * numberOfPairs > hostCount && hostCount % 2 == 1;
        return RetriesForever;
      }
      var server, client;
      server, client, servers, clients, hostSet := DrawRound(all, servers, clients, hostSet);
    }
    assert |clients| == (if numberOfPairs < 0 then 0 else numberOfPairs) && 2 * numberOfPairs <= hostCount;
    UniformDone(hostCount, all, servers, clients, hostSet);
    return Pairs(servers, clients);
  }

  /** The pairs drawn from the indices `0 .. hostCount-1` form a matching of
      such indices, and use all of them once the pool is empty. */
  lemma UniformDone(hostCount: nat, all: seq<int>, servers: seq<int>, clients: seq<int>, pool: seq<int>)
    requires all == Range(0, hostCount) && Drawn(all, servers, clients, pool)
    ensures IsMatching(servers, clients)
    ensures forall i :: 0 <= i < |clients| ==> 0 <= servers[i] < hostCount && 0 <= clients[i] < hostCount
    ensures |pool| == 0 ==> forall x :: 0 <= x < hostCount ==> x in servers || x in clients
  {
    DrawnFrom(all, servers, clients, pool);
  }

  // ---------------------------------------------------------------------------
  // generateServerClientPairs: pairs drawn inside each pod

  /** The inner `while len(podSubset) > 1` loop: pairs the indices
      `first .. last-1` into `dict[client] = server` until at most one is
      left. */
  method PairPodSubset(first: int, last: int) returns (d: map<int, int>)
    ensures IsPairDict(d)
    ensures forall c :: c in d ==> first <= c < last && first <= d[c] < last
    ensures |d| == if first <= last then (last - first) / 2 else 0
    ensures (last - first) % 2 == 0 ==> forall x :: first <= x < last ==> x in d || x in d.Values
  {
    var podSubset := Range(first, last);
    d := map[];
    while |podSubset| > 1
      invariant DictPool(first, last, podSubset, d)
      invariant |podSubset| + 2 * |d| == if first <= last then last - first else 0
      decreases |podSubset|
    {
      var server, client;
      server, client, podSubset, d := PodRound(first, last, podSubset, d);
    }
    PodPoolDone(first, last, podSubset, d);
  }

  /** When the pod loop stops, the dict holds half the pod's indices as keys
      and, for an even count, every index is a key or a value. */
  lemma PodPoolDone(first: int, last: int, podSubset: seq<int>, d: map<int, int>)
    requires DictPool(first, last, podSubset, d) && |podSubset| <= 1
    requires |podSubset| + 2 * |d| == if first <= last then last - first else 0
    ensures |d| == if first <= last then (last - first) / 2 else 0
    ensures (last - first) % 2 == 0 ==> forall x :: first <= x < last ==> x in d || x in d.Values
  {
    if (last - first) % 2 == 0 {
      assert |podSubset| == 0;
      forall x | first <= x < last
        ensures x in d || x in d.Values
      {
        assert x !in podSubset;
      }
    }
  }

  /** One round of the pod loop: `dict[randomClient] = randomServer`, then
      `podSubset.remove(randomServer)` and `podSubset.remove(randomClient)`. */
  method PodRound(first: int, last: int, podSubset: seq<int>, d: map<int, int>)
    returns (server: int, client: int, rest: seq<int>, e: map<int, int>)
    requires 2 <= |podSubset| && DictPool(first, last, podSubset, d)
    ensures server in podSubset && client in podSubset && server != client
    ensures client !in d && e == d[client := server]
    ensures rest == RemoveBoth(podSubset, server, client)
    ensures DictPool(first, last, rest, e)
  {
    server, client := ChooseDistinct(podSubset);
    e := d[client := server];
    MapUpdateValues(d, client, server);
    RemoveFirstNoDups(podSubset, server);
    rest := RemoveFirst(podSubset, server);
    RemoveFirstNoDups(rest, client);
    rest := RemoveFirst(rest, client);
  }

  /** `(pod - 1) * (k ** 2) / 4` for the pod numbered `p + 1`: the first host
      index of pod `p` (0-based), with Python 2's floor division. */
  function PodStart(k: nat, p: nat): nat
  {
    p * (k * k) / 4
  }

  /** Host indices `x` of pod `p` (0-based). */
  predicate InPod(k: nat, x: int, p: nat)
  {
    PodStart(k, p) <= x < PodStart(k, p + 1)
  }

  /** Hosts per pod, `k²/4`, and the pairs drawn in each pod. */
  function PodSize(k: nat): nat { k * k / 4 }
  function PairsPerPod(k: nat): nat { PodSize(k) / 2 }

  /** Position of the `j`-th pair of pod `p` (0-based) in the result lists,
      when every pod contributes the same number of pairs. */
  function Pos(k: nat, p: nat, j: nat): nat
  {
    p * PairsPerPod(k) + j
  }

  /** What the pod loop guarantees after its first `p` rounds: the pairs form
      a matching below the first index of pod `p`; for even `k`, pod `q`
      contributes pairs `Pos(k, q, 0)` up to `Pos(k, q, PairsPerPod(k) - 1)`,
      all inside pod `q`; and when `k` is a multiple of four every index so
      far is used. */
  predicate PodPairs(k: nat, p: nat, servers: seq<int>, clients: seq<int>)
  {
    IsMatching(servers, clients) && PairsBelow(k, p, servers, clients)
      && PairsPlaced(k, p, servers, clients) && PodsCovered(k, p, servers, clients)
  }

  /** Every endpoint lies below the first index of pod `p`. */
  predicate PairsBelow(k: nat, p: nat, servers: seq<int>, clients: seq<int>)
  {
    |servers| == |clients|
      && forall i :: 0 <= i < |clients| ==> 0 <= servers[i] < PodStart(k, p) && 0 <= clients[i] < PodStart(k, p)
  }

  /** For even `k`, pods `0 .. p-1` each contribute `PairsPerPod(k)` pairs, in
      pod order, and both ends of each lie in their pod. */
  predicate PairsPlaced(k: nat, p: nat, servers: seq<int>, clients: seq<int>)
  {
    |servers| == |clients|
      && (k % 2 == 0 ==> |clients| == p * PairsPerPod(k))
      && (k % 2 == 0 ==> forall q, j :: 0 <= q < p && 0 <= j < PairsPerPod(k) ==>
            Pos(k, q, j) < |clients| && InPod(k, clients[Pos(k, q, j)], q) && InPod(k, servers[Pos(k, q, j)], q))
  }

  /** For `k` a multiple of four, every index below pod `p` is used. */
  predicate PodsCovered(k: nat, p: nat, servers: seq<int>, clients: seq<int>)
  {
    k % 4 == 0 ==> forall x :: 0 <= x < PodStart(k, p) ==> x in clients || x in servers
  }

  /** What one round of the pod loop contributes for pod `p`. */
  predicate OnePod(k: nat, p: nat, servers: seq<int>, clients: seq<int>)
  {
    && IsMatching(servers, clients)
    && (forall i :: 0 <= i < |clients| ==> InPod(k, servers[i], p) && InPod(k, clients[i], p))
    && |clients| == (PodStart(k, p + 1) - PodStart(k, p)) / 2
    && ((PodStart(k, p + 1) - PodStart(k, p)) % 2 == 0 ==>
          forall x :: PodStart(k, p) <= x < PodStart(k, p + 1) ==> x in clients || x in servers)
  }

  /** `generateServerClientPairs`: for each pod, pairs up the pod's host
      indices and appends the dict's keys to `clients` and its values to
      `servers`. */
  method GenerateServerClientPairs(k: nat) returns (servers: seq<int>, clients: seq<int>)
    ensures PodPairs(k, k, servers, clients)
  {
    clients, servers := [], [];
    for pod := 1 to k + 1
      invariant PodPairs(k, pod - 1, servers, clients)
    {
      var serversFromPod, clientsFromPod := PairPod(k, pod);
      PodPairsStep(k, pod - 1, servers, clients, serversFromPod, clientsFromPod);
      clients := clients + clientsFromPod;
      servers := servers + serversFromPod;
    }
  }

  /** One round of the pod loop, for the pod numbered `pod` (1-based): the
      pod's index range, its pair dict, and the dict read out as lists. */
  method PairPod(k: nat, pod: nat) returns (serversFromPod: seq<int>, clientsFromPod: seq<int>)
    requires 1 <= pod
    ensures OnePod(k, pod - 1, serversFromPod, clientsFromPod)
  {
    var firstOfThePod := (pod - 1) * (k * k) / 4;
    var lastOfThePod := pod * (k * k) / 4;
    PodStartMonotone(k, pod - 1);
    var d := PairPodSubset(firstOfThePod, lastOfThePod);
    serversFromPod, clientsFromPod := PairDictLists(d);
    assert firstOfThePod == PodStart(k, pod - 1) && lastOfThePod == PodStart(k, pod);
    forall i | 0 <= i < |clientsFromPod|
      ensures InPod(k, serversFromPod[i], pod - 1) && InPod(k, clientsFromPod[i], pod - 1)
    {
      var c := clientsFromPod[i];
      assert c in d && serversFromPod[i] == d[c];
      assert firstOfThePod <= c < lastOfThePod && firstOfThePod <= d[c] < lastOfThePod;
      assert PodStart(k, pod - 1 + 1) == lastOfThePod;
    }
  }

  lemma PodStartMonotone(k: nat, p: nat)
    ensures PodStart(k, p) <= PodStart(k, p + 1)
  {
    NextRow(p, k * k);
  }

  /** For even `k` the pods are equal blocks of `k²/4` host indices. */
  lemma EvenPodStart(k: nat, p: nat)
    requires k % 2 == 0
    ensures PodStart(k, p) == p * PodSize(k)
    ensures PodStart(k, p + 1) - PodStart(k, p) == PodSize(k)
  {
    var h := k / 2;
    assert k * k == 4 * (h * h);
    assert p * (k * k) == 4 * (p * (h * h));
    assert (p + 1) * (k * k) == 4 * ((p + 1) * (h * h));
    NextRow(p, h * h);
  }

  /** One round of the pod loop keeps `PodPairs`. */
  lemma PodPairsStep(k: nat, p: nat, servers: seq<int>, clients: seq<int>, sv: seq<int>, cl: seq<int>)
    requires PodPairs(k, p, servers, clients) && OnePod(k, p, sv, cl)
    ensures PodPairs(k, p + 1, servers + sv, clients + cl)
  {
    PodStartMonotone(k, p);
    MatchingAppend(servers, clients, sv, cl, PodStart(k, p));
    BelowStep(k, p, servers, clients, sv, cl);
    PlacedStep(k, p, servers, clients, sv, cl);
    CoveredStep(k, p, servers, clients, sv, cl);
  }

  lemma BelowStep(k: nat, p: nat, servers: seq<int>, clients: seq<int>, sv: seq<int>, cl: seq<int>)
    requires PairsBelow(k, p, servers, clients) && OnePod(k, p, sv, cl)
    ensures PairsBelow(k, p + 1, servers + sv, clients + cl)
  {
    PodStartMonotone(k, p);
  }

  lemma PlacedStep(k: nat, p: nat, servers: seq<int>, clients: seq<int>, sv: seq<int>, cl: seq<int>)
    requires PairsPlaced(k, p, servers, clients) && OnePod(k, p, sv, cl)
    ensures PairsPlaced(k, p + 1, servers + sv, clients + cl)
  {
    var s, c := servers + sv, clients + cl;
    if k % 2 == 0 {
      EvenPodStart(k, p);
      var m := PairsPerPod(k);
      assert |cl| == m;
      NextRow(p, m);
      forall q, j | 0 <= q < p + 1 && 0 <= j < m
        ensures Pos(k, q, j) < |c| && InPod(k, c[Pos(k, q, j)], q) && InPod(k, s[Pos(k, q, j)], q)
      {
        if q < p {
          RowBefore(q, m, j, p);
        } else {
          assert c[Pos(k, q, j)] == cl[j] && s[Pos(k, q, j)] == sv[j];
        }
      }
    }
  }

  lemma CoveredStep(k: nat, p: nat, servers: seq<int>, clients: seq<int>, sv: seq<int>, cl: seq<int>)
    requires PodsCovered(k, p, servers, clients) && OnePod(k, p, sv, cl)
    ensures PodsCovered(k, p + 1, servers + sv, clients + cl)
  {
    if k % 4 == 0 {
      var lo, hi := PodStart(k, p), PodStart(k, p + 1);
      EvenPodSpan(k, p);
      assert forall x :: lo <= x < hi ==> x in cl || x in sv;
      forall x | 0 <= x < hi
        ensures x in clients + cl || x in servers + sv
      {
        if x < lo {
          assert x in clients || x in servers;
        }
      }
    }
  }

  /** For `k` a multiple of four every pod spans an even number of indices. */
  lemma EvenPodSpan(k: nat, p: nat)
    requires k % 4 == 0
    ensures (PodStart(k, p + 1) - PodStart(k, p)) % 2 == 0
  {
    QuarterEven(k);
    EvenPodStart(k, p);
    EvenPodSize(k);
    EvenDifference(PodStart(k, p + 1), PodStart(k, p), PodSize(k));
  }

  lemma EvenDifference(hi: int, lo: int, size: int)
    requires hi - lo == size && size % 2 == 0
    ensures (hi - lo) % 2 == 0
  {
  }

  /** For `k` a multiple of four a pod holds an even number of hosts. */
  lemma EvenPodSize(k: nat)
    requires k % 4 == 0
    ensures PodSize(k) % 2 == 0
  {
    var t := k / 4;
    assert k * k == 16 * (t * t);
    assert PodSize(k) == 2 * (2 * (t * t));
  }

  // ---------------------------------------------------------------------------
  // The different-pod stages: client `index` against server `len - 1 - index`

  /** Reversing the pair order maps pair `j` of pod `p` onto pair
      `PairsPerPod(k) - 1 - j` of pod `k - 1 - p`. */
  lemma ReversedPos(k: nat, p: nat, j: nat)
    requires p < k && j < PairsPerPod(k)
    ensures k * PairsPerPod(k) - 1 - Pos(k, p, j) == Pos(k, k - 1 - p, PairsPerPod(k) - 1 - j)
  {
    var m := PairsPerPod(k);
    assert k * m == (k - 1 - p) * m + p * m + m by {
      assert k == (k - 1 - p) + p + 1;
    }
  }

  /** Host indices of different pods are different: each index lies in one pod
      only. */
  lemma {:induction false} PodsDisjoint(k: nat, x: int, p1: nat, p2: nat)
    requires 2 <= k && InPod(k, x, p1) && InPod(k, x, p2)
    ensures p1 == p2
  {
    if p1 < p2 {
      PodStartGrows(k, p1 + 1, p2);
    } else if p2 < p1 {
      PodStartGrows(k, p2 + 1, p1);
    }
  }

  lemma {:induction false} PodStartGrows(k: nat, p: nat, q: nat)
    requires p <= q
    ensures PodStart(k, p) <= PodStart(k, q)
    decreases q - p
  {
    if p < q {
      PodStartMonotone(k, p);
      PodStartGrows(k, p + 1, q);
    }
  }

  /** The "k must be even!" remark: with even `k`, client `i` and server
      `len - 1 - i` always lie in different pods, since pair `j` of pod `p`
      meets a server of pod `k - 1 - p`, and `k - 1 - p` is never `p`. */
  lemma DifferentPodPairsCrossPods(k: nat, servers: seq<int>, clients: seq<int>, p: nat, j: nat)
    requires 2 <= k && k % 2 == 0 && PodPairs(k, k, servers, clients)
    requires p < k && j < PairsPerPod(k)
    ensures var i := Pos(k, p, j); var n := |clients|;
      && i < n && 0 <= n - 1 - i < |servers|
      && InPod(k, clients[i], p) && InPod(k, servers[n - 1 - i], k - 1 - p)
      && !InPod(k, servers[n - 1 - i], p)
  {
    assert PairsPlaced(k, k, servers, clients);
    PlacedCrossPods(k, servers, clients, p, j);
  }

  /** `DifferentPodPairsCrossPods` from the placement of the pairs alone. */
  lemma PlacedCrossPods(k: nat, servers: seq<int>, clients: seq<int>, p: nat, j: nat)
    requires 2 <= k && k % 2 == 0 && PairsPlaced(k, k, servers, clients)
    requires p < k && j < PairsPerPod(k)
    ensures var i := Pos(k, p, j); var n := |clients|;
      && i < n && 0 <= n - 1 - i < |servers|
      && InPod(k, clients[i], p) && InPod(k, servers[n - 1 - i], k - 1 - p)
      && !InPod(k, servers[n - 1 - i], p)
  {
    var m, n := PairsPerPod(k), |clients|;
    var q := k - 1 - p;
    var i, r := Pos(k, p, j), Pos(k, q, m - 1 - j);
    PlacedAt(k, servers, clients, p, j);
    PlacedAt(k, servers, clients, q, m - 1 - j);
    ReversedIndex(k, n, p, j);
    if InPod(k, servers[r], p) {
      PodsDisjoint(k, servers[r], p, q);
    }
  }

  /** Pair `j` of pod `p` exists, and both its ends lie in pod `p`. */
  lemma PlacedAt(k: nat, servers: seq<int>, clients: seq<int>, p: nat, j: nat)
    requires k % 2 == 0 && PairsPlaced(k, k, servers, clients)
    requires p < k && j < PairsPerPod(k)
    ensures |clients| == k * PairsPerPod(k) && |servers| == |clients|
    ensures Pos(k, p, j) < |clients|
    ensures InPod(k, clients[Pos(k, p, j)], p) && InPod(k, servers[Pos(k, p, j)], p)
  {
  }

  /** In a list of `k` pods' pairs, `len - 1 - i` for pair `j` of pod `p` is
      pair `PairsPerPod(k) - 1 - j` of pod `k - 1 - p`. */
  lemma ReversedIndex(k: nat, n: nat, p: nat, j: nat)
    requires n == k * PairsPerPod(k) && p < k && j < PairsPerPod(k)
    ensures n - 1 - Pos(k, p, j) == Pos(k, k - 1 - p, PairsPerPod(k) - 1 - j)
  {
    ReversedPos(k, p, j);
  }

  /** The same-pod stages: client `index` measures against server `index`
      for the fixed test duration. */
  method SamePodStage(hostList: seq<string>, servers: seq<int>, clients: seq<int>, duration: int) returns (launches: seq<Launch>)
    requires |clients| <= |servers|
    requires forall i :: 0 <= i < |clients| ==> 0 <= clients[i] < |hostList| && 0 <= servers[i] < |hostList|
    ensures |launches| == |clients|
    ensures forall i :: 0 <= i < |clients| ==> launches[i] == Launch(hostList[clients[i]], hostList[servers[i]], duration)
  {
    launches := [];
    for index := 0 to |clients|
      invariant |launches| == index
      invariant forall i :: 0 <= i < index ==> launches[i] == Launch(hostList[clients[i]], hostList[servers[i]], duration)
    {
      launches := launches + [Launch(hostList[clients[index]], hostList[servers[index]], duration)];
    }
  }

  /** The different-pod stages: client `index` measures against server
      `len(clients) - 1 - index`, for `base + len(clients) - index` seconds, so
      that clients started one second apart finish together. */
  method DifferentPodStage(hostList: seq<string>, servers: seq<int>, clients: seq<int>, base: int) returns (launches: seq<Launch>)
    requires |clients| <= |servers|
    requires forall i :: 0 <= i < |clients| ==> 0 <= clients[i] < |hostList| && 0 <= servers[i] < |hostList|
    ensures |launches| == |clients|
    ensures forall i :: 0 <= i < |clients| ==>
      launches[i] == Launch(hostList[clients[i]], hostList[servers[|clients| - 1 - i]], StaggeredDuration(base, |clients|, i))
    ensures forall i :: 0 <= i < |clients| ==> base + 1 <= launches[i].duration <= base + |clients|
    ensures forall i :: 0 <= i < |clients| ==> i + launches[i].duration == base + |clients|
    ensures forall i, j :: 0 <= i < j < |clients| ==> launches[j].duration < launches[i].duration
  {
    launches := [];
    for index := 0 to |clients|
      invariant |launches| == index
      invariant forall i :: 0 <= i < index ==>
        launches[i] == Launch(hostList[clients[i]], hostList[servers[|clients| - 1 - i]], StaggeredDuration(base, |clients|, i))
    {
      var duration := base + |clients| - index;
      launches := launches + [Launch(hostList[clients[index]], hostList[servers[|clients| - 1 - index]], duration)];
    }
  }

  /** The pods of an even `k` end exactly at the fat tree's host count: the
      pod pairing draws only indices of the host list. */
  lemma PairsFitHosts(k: nat)
    requires k % 2 == 0
    ensures PodStart(k, k) == FatTree.HostCount(k)
  {
    var h := k / 2;
    EvenPodStart(k, k);
    FatTree.LayerCounts(k);
    assert k * k == 4 * (h * h);
    assert PodSize(k) == FatTree.CoreCount(k);
  }

  /** The pod pairs of an even `k` index the fat tree's host list. */
  lemma PairsIndexHosts(k: nat, servers: seq<int>, clients: seq<int>)
    requires k % 2 == 0 && PodPairs(k, k, servers, clients)
    ensures forall i :: 0 <= i < |clients| ==> 0 <= clients[i] < FatTree.HostCount(k) && 0 <= servers[i] < FatTree.HostCount(k)
  {
    PairsFitHosts(k);
  }

  /** In a pair of a matching, and in the pair the different-pod stage forms
      by reversing the servers, client and server are different hosts. */
  lemma PairHostsDiffer(k: nat, servers: seq<int>, clients: seq<int>, i: nat)
    requires IsMatching(servers, clients) && i < |clients|
    requires 0 <= clients[i] < FatTree.HostCount(k) && 0 <= servers[i] < FatTree.HostCount(k)
    requires 0 <= servers[|clients| - 1 - i] < FatTree.HostCount(k)
    ensures FatTree.LayerNames(FatTree.HostLayer, FatTree.HostCount(k))[clients[i]]
      != FatTree.LayerNames(FatTree.HostLayer, FatTree.HostCount(k))[servers[i]]
    ensures FatTree.LayerNames(FatTree.HostLayer, FatTree.HostCount(k))[clients[i]]
      != FatTree.LayerNames(FatTree.HostLayer, FatTree.HostCount(k))[servers[|clients| - 1 - i]]
  {
    var j := |clients| - 1 - i;
    assert clients[i] != servers[i] && clients[i] != servers[j];
    HostNamesDiffer(k, clients[i], servers[i]);
    HostNamesDiffer(k, clients[i], servers[j]);
  }

  /** Distinct host indices name distinct hosts. */
  lemma HostNamesDiffer(k: nat, a: nat, b: nat)
    requires a < FatTree.HostCount(k) && b < FatTree.HostCount(k) && a != b
    ensures FatTree.LayerNames(FatTree.HostLayer, FatTree.HostCount(k))[a]
      != FatTree.LayerNames(FatTree.HostLayer, FatTree.HostCount(k))[b]
  {
    FatTree.NodeNameInjective(FatTree.HostLayer, a + 1, FatTree.HostLayer, b + 1);
  }

  /** `run()` on a built fat tree: `generateServerClientPairs(net, topo, kNUMBER)`
      followed by the same-pod and the different-pod stage of a test. Every
      index the pairs hold names a host of the tree, and in every launch a
      host measures against a different host. */
  method PodTestStages(t: FatTree.FatTreeTopo, duration: int, base: int)
    returns (servers: seq<int>, clients: seq<int>, same: seq<Launch>, different: seq<Launch>)
    requires t.Valid()
    ensures PodPairs(t.k, t.k, servers, clients)
    ensures forall i :: 0 <= i < |clients| ==> 0 <= clients[i] < |t.hostList| && 0 <= servers[i] < |t.hostList|
    ensures |same| == |clients| && |different| == |clients|
    ensures forall i :: 0 <= i < |clients| ==>
      same[i] == Launch(t.hostList[clients[i]], t.hostList[servers[i]], duration)
    ensures forall i :: 0 <= i < |clients| ==>
      different[i] == Launch(t.hostList[clients[i]], t.hostList[servers[|clients| - 1 - i]], StaggeredDuration(base, |clients|, i))
    ensures forall i :: 0 <= i < |clients| ==>
      same[i].client != same[i].server && different[i].client != different[i].server
  {
    var hostList := t.hostList;
    servers, clients := GenerateServerClientPairs(t.k);
    PairsIndexHosts(t.k, servers, clients);
    same := SamePodStage(hostList, servers, clients, duration);
    different := DifferentPodStage(hostList, servers, clients, base);
    forall i | 0 <= i < |clients|
      ensures same[i].client != same[i].server && different[i].client != different[i].server
    {
      PairHostsDiffer(t.k, servers, clients, i);
    }
  }
}
