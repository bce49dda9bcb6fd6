/** The client/server pairing of the jellyfish experiment, which pairs up
    host names at random until at most one is left, and the launch plan of its
    UDP stage. */
module Jellyfish {
  import opened Pairing
  import opened Stage

  /** `generateServerClientPairs`: draws a server and a different client from
      the host names while two or more are left, and removes both. Every host
      but at most one ends up in exactly one pair. Mininet host names are
      unique, hence the requirement on `hosts`. */
  method GenerateServerClientPairs(hosts: seq<string>) returns (servers: seq<string>, clients: seq<string>)
    requires NoDups(hosts)
    ensures IsMatching(servers, clients)
    ensures |clients| == |hosts| / 2
    ensures forall i :: 0 <= i < |clients| ==> servers[i] in hosts && clients[i] in hosts
    ensures multiset(servers) + multiset(clients) <= multiset(hosts)
    ensures |hosts| % 2 == 0 ==> forall h :: h in hosts ==> h in servers || h in clients
  {
    clients, servers := [], [];
    var pool := hosts;
    while |pool| > 1
      invariant 2 * |clients| + |pool| == |hosts|
      invariant Drawn(hosts, servers, clients, pool)
      decreases |pool|
    {
      var server, client;
      server, client, servers, clients, pool := DrawRound(hosts, servers, clients, pool);
    }
    DrawnFrom(hosts, servers, clients, pool);
  }

  /** The UDP stage: client `index` measures against server `index`. The
      clients start one second apart and client `index` runs for
      `base + len(clients) - index` seconds, so that all of them stop at the
      same moment, `base + len(clients)` seconds after the first start. */
  method UdpStage(servers: seq<string>, clients: seq<string>, base: int) returns (launches: seq<Launch>)
    requires |clients| <= |servers|
    ensures |launches| == |clients|
    ensures forall i :: 0 <= i < |clients| ==>
      launches[i] == Launch(clients[i], servers[i], StaggeredDuration(base, |clients|, i))
    ensures forall i :: 0 <= i < |clients| ==> i + launches[i].duration == base + |clients|
    ensures forall i, j :: 0 <= i < j < |clients| ==> launches[j].duration < launches[i].duration
  {
    launches := [];
    for index := 0 to |clients|
      invariant |launches| == index
      invariant forall i :: 0 <= i < index ==>
        launches[i] == Launch(clients[i], servers[i], StaggeredDuration(base, |clients|, i))
    {
      var duration := base + |clients| - index;
      launches := launches + [Launch(clients[index], servers[index], duration)];
    }
  }
}
