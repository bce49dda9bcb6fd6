/** The pair lists of the ssh-driven hypercube test: the same `while seq:`
    pairing over `range(0, 2 ** a)` as the hypercube example, read out as
    index lists that the later loops walk for `i < n/2`. The dimension `a`,
    a module global there, is a parameter here. The `difer` of this test is
    a verbatim copy of the hypercube's and is modelled once, as
    `Hyper.Difer`. */
module TestNetSRV {
  import opened Pairing
  import opened Bits
  import Hyper

  /** How the pairing in `Test` can end: with the client (key) and server
      (value) index lists, or, for `a == 0`, in the retry loop that never
      finds a partner for the one index. */
  datatype PairLists = Lists(servers: seq<int>, clients: seq<int>) | Stuck

  /** `Test` up to `clients` and `servers`: pairs up `0 .. 2**a - 1` and reads
      the dict out as key and value lists. For `a >= 1` both lists have
      `2 ** (a - 1)` entries, so every `servers[i]` and `clients[i]` with
      `i < n/2` exists; no index is paired with itself, none is used twice,
      and every index is used. */
  method Test(a: nat) returns (r: PairLists)
    ensures r.Stuck? <==> a == 0
    ensures r.Lists? ==> 1 <= a && |r.servers| == |r.clients| == Pow2(a - 1) == Pow2(a) / 2
    ensures r.Lists? ==> IsMatching(r.servers, r.clients)
    ensures r.Lists? ==> forall i :: 0 <= i < |r.clients| ==> r.servers[i] != r.clients[i]
    ensures r.Lists? ==> forall i :: 0 <= i < |r.clients| ==> 0 <= r.servers[i] < Pow2(a) && 0 <= r.clients[i] < Pow2(a)
    ensures r.Lists? ==> forall x :: 0 <= x < Pow2(a) ==> x in r.servers || x in r.clients
  {
    var n := Pow2(a);
    Pow2Half(a);
    var outcome := Hyper.PairRange(n);
    if outcome.RetriesForever? {
      return Stuck;
    }
    var dict := outcome.d;
    var servers, clients := PairDictLists(dict);
    MatchingHasNoSelfPairs(servers, clients);
    forall x | 0 <= x < n
      ensures x in servers || x in clients
    {
      assert x in dict || x in dict.Values;
    }
    return Lists(servers, clients);
  }
}
