/** What the five client/server pairing loops share: a pool that is a Python
    list (`remove` deletes the first occurrence), the pick of a server and a
    distinct client by `random.choice`, the facts that make a list of pairs a
    matching, and the reading of a result dict into key and value lists. */
module Pairing {

  /** No element occurs twice. */
  predicate NoDups<T(==)>(s: seq<T>)
  {
    forall i, j :: 0 <= i < j < |s| ==> s[i] != s[j]
  }

  /** No element of `a` occurs in `b`. */
  predicate Disjoint<T(==)>(a: seq<T>, b: seq<T>)
  {
    forall i, j :: 0 <= i < |a| && 0 <= j < |b| ==> a[i] != b[j]
  }

  /** `servers[i]` is paired with `clients[i]`, and no endpoint is used twice,
      neither within one list nor across the two; in particular no endpoint
      is paired with itself. */
  predicate IsMatching<T(==)>(servers: seq<T>, clients: seq<T>)
  {
    |servers| == |clients| && NoDups(servers) && NoDups(clients) && Disjoint(servers, clients)
  }

  lemma MatchingHasNoSelfPairs<T>(servers: seq<T>, clients: seq<T>)
    requires IsMatching(servers, clients)
    ensures forall i :: 0 <= i < |servers| ==> servers[i] != clients[i]
  {
  }

  /** Python's `range(first, last)`. */
  function Range(first: int, last: int): (r: seq<int>)
    ensures |r| == if first <= last then last - first else 0
    ensures forall x :: x in r <==> first <= x < last
    ensures NoDups(r)
    decreases last - first
  {
    if first < last then
      var rest := Range(first + 1, last);
      assert forall j :: 0 <= j < |rest| ==> rest[j] in rest;
      [first] + rest
    else []
  }

  /** Python's `list.remove(x)`: deletes the first occurrence of `x`. */
  function RemoveFirst<T(==)>(s: seq<T>, x: T): (r: seq<T>)
    requires x in s
    ensures |r| == |s| - 1
    ensures multiset(r) == multiset(s) - multiset{x}
  {
    assert s == [s[0]] + s[1..];
    if s[0] == x then s[1..] else [s[0]] + RemoveFirst(s[1..], x)
  }

  lemma {:induction false} NoDupsCount<T>(s: seq<T>, x: T)
    requires NoDups(s)
    ensures multiset(s)[x] <= 1
  {
    if |s| > 0 {
      assert s == [s[0]] + s[1..];
      assert NoDups(s[1..]) by {
        forall i, j | 0 <= i < j < |s[1..]| ensures s[1..][i] != s[1..][j] {
          assert s[1..][i] == s[i + 1] && s[1..][j] == s[j + 1];
        }
      }
      NoDupsCount(s[1..], x);
      if s[0] == x {
        assert x !in s[1..] by {
          forall j | 0 <= j < |s[1..]| ensures s[1..][j] != x {
            assert s[1..][j] == s[j + 1];
          }
        }
      }
    }
  }

  lemma RepeatCount<T>(s: seq<T>, i: int, j: int)
    requires 0 <= i < j < |s| && s[i] == s[j]
    ensures multiset(s)[s[i]] >= 2
  {
    assert s == s[..i] + [s[i]] + s[i + 1..j] + [s[j]] + s[j + 1..];
  }

  /** A bag drawn from a list without duplicates has no duplicates either. */
  lemma NoDupsOfSubBag<T>(s: seq<T>, t: seq<T>)
    requires multiset(s) <= multiset(t) && NoDups(t)
    ensures NoDups(s)
  {
    forall i, j | 0 <= i < j < |s| ensures s[i] != s[j] {
      if s[i] == s[j] {
        RepeatCount(s, i, j);
        NoDupsCount(t, s[i]);
      }
    }
  }

  /** Pairs drawn without replacement from a list without duplicates form a
      matching. */
  lemma MatchingOfSubBag<T>(servers: seq<T>, clients: seq<T>, t: seq<T>)
    requires |servers| == |clients|
    requires multiset(servers) + multiset(clients) <= multiset(t) && NoDups(t)
    ensures IsMatching(servers, clients)
  {
    var both := servers + clients;
    assert multiset(both) == multiset(servers) + multiset(clients);
    NoDupsOfSubBag(both, t);
    forall i, j | 0 <= i < j < |servers| ensures servers[i] != servers[j] {
      assert both[i] == servers[i] && both[j] == servers[j];
    }
    forall i, j | 0 <= i < j < |clients| ensures clients[i] != clients[j] {
      assert both[|servers| + i] == clients[i] && both[|servers| + j] == clients[j];
    }
    forall i, j | 0 <= i < |servers| && 0 <= j < |clients| ensures servers[i] != clients[j] {
      assert both[i] == servers[i] && both[|servers| + j] == clients[j];
    }
  }

  /** One round of a pairing loop: `random.choice` picks the first endpoint,
      then `random.choice` is repeated until it returns a different one. Only
      the outcomes of a retry loop that ends are modelled, which needs two
      distinct endpoints in the pool (with one, the retry never ends; the
      callers account for that case). */
  method ChooseDistinct<T(==)>(pool: seq<T>) returns (first: T, second: T)
    requires 2 <= |pool| && NoDups(pool)
    ensures first in pool && second in pool && first != second
  {
    assert pool[0] in pool;
    first :| first in pool;
    var other := if pool[0] == first then pool[1] else pool[0];
    assert other in pool && other != first;
    second :| second in pool && second != first;
  }

  /** The state of a pairing loop that appends to `servers` and `clients`:
      the pool has no repeats, and pool and pairs together are the endpoints
      `all` the loop started with. */
  ghost predicate Drawn<T>(all: seq<T>, servers: seq<T>, clients: seq<T>, pool: seq<T>)
  {
    && NoDups(pool)
    && |servers| == |clients|
    && multiset(servers) + multiset(clients) + multiset(pool) == multiset(all)
  }

  /** The pairs a pairing loop has drawn from a list without repeats form a
      matching of endpoints of that list. */
  lemma DrawnFrom<T>(all: seq<T>, servers: seq<T>, clients: seq<T>, pool: seq<T>)
    requires Drawn(all, servers, clients, pool) && NoDups(all)
    ensures IsMatching(servers, clients)
    ensures forall i :: 0 <= i < |clients| ==> servers[i] in all && clients[i] in all
    ensures |pool| == 0 ==> forall x :: x in all ==> x in servers || x in clients
  {
    MatchingOfSubBag(servers, clients, all);
    if |pool| == 0 {
      forall x | x in all
        ensures x in servers || x in clients
      {
        assert x in multiset(all);
        assert multiset(pool) == multiset{};
      }
    }
    forall i | 0 <= i < |clients|
      ensures servers[i] in all && clients[i] in all
    {
      assert servers[i] in multiset(servers) && clients[i] in multiset(clients);
      assert multiset(servers) <= multiset(all) && multiset(clients) <= multiset(all);
      assert servers[i] in multiset(all) && clients[i] in multiset(all);
    }
  }

  /** A pool of `left` after `drawn` pairs of `n`: it is empty exactly when
      `n` is even. */
  lemma PoolParity(n: nat, drawn: nat, left: nat)
    requires 2 * drawn + left == n && left <= 1
    ensures left == 0 <==> n % 2 == 0
  {
  }

  /** Removing one element keeps every other element. */
  lemma RemoveFirstKeeps<T>(s: seq<T>, x: T, y: T)
    requires x in s && y in s && x != y
    ensures y in RemoveFirst(s, x)
  {
    assert multiset(RemoveFirst(s, x))[y] == multiset(s)[y];
  }

  /** `remove(x)` followed by `remove(y)` for two distinct members. */
  function RemoveBoth<T(==)>(s: seq<T>, x: T, y: T): (r: seq<T>)
    requires x in s && y in s && x != y
    ensures |r| == |s| - 2
    ensures multiset(r) == multiset(s) - multiset{x} - multiset{y}
  {
    RemoveFirstKeeps(s, x, y);
    RemoveFirst(RemoveFirst(s, x), y)
  }

  /** A round of the loop in the uniform and the jellyfish pairing: a server
      and a distinct client are drawn, `clients.append(randomClient)`,
      `servers.append(randomServer)`, then `remove(randomClient)` and
      `remove(randomServer)` on the pool. */
  method DrawRound<T(==)>(ghost all: seq<T>, servers: seq<T>, clients: seq<T>, pool: seq<T>)
    returns (server: T, client: T, servers': seq<T>, clients': seq<T>, pool': seq<T>)
    requires 2 <= |pool| && Drawn(all, servers, clients, pool)
    ensures server in pool && client in pool && server != client
    ensures servers' == servers + [server] && clients' == clients + [client]
    ensures pool' == RemoveBoth(pool, client, server)
    ensures Drawn(all, servers', clients', pool')
  {
    server, client := ChooseDistinct(pool);
    clients' := clients + [client];
    servers' := servers + [server];
    RemoveFirstNoDups(pool, client);
    pool' := RemoveFirst(pool, client);
    RemoveFirstNoDups(pool', server);
    pool' := RemoveFirst(pool', server);
    assert multiset(servers') == multiset(servers) + multiset{server};
    assert multiset(clients') == multiset(clients) + multiset{client};
  }

  /** The pairs recorded in a dict `dict[client] = server`: a key is never its
      own value, no value is the key of another entry, and no two keys share a
      value. */
  predicate IsPairDict(d: map<int, int>)
  {
    && (forall c :: c in d ==> d[c] !in d)
    && (forall c1, c2 :: c1 in d && c2 in d && c1 != c2 ==> d[c1] != d[c2])
  }

  /** `[i for i in dict.keys()]` and `[i for i in dict.values()]`. The dict's
      iteration order is not specified, so the keys come out in whatever
      order; the two lists list the entries in the same order, so position
      `i` of both is one entry. */
  method DictLists<K, V>(d: map<K, V>) returns (keys: seq<K>, values: seq<V>)
    ensures |keys| == |values| == |d|
    ensures NoDups(keys)
    ensures forall c :: c in d <==> c in keys
    ensures forall i :: 0 <= i < |keys| ==> keys[i] in d && values[i] == d[keys[i]]
  {
    keys, values := [], [];
    var rest := d.Keys;
    while rest != {}
      invariant rest <= d.Keys
      invariant |keys| == |values| && |keys| + |rest| == |d|
      invariant NoDups(keys)
      invariant forall i :: 0 <= i < |keys| ==> keys[i] in d && keys[i] !in rest && values[i] == d[keys[i]]
      invariant forall c :: c in d ==> c in rest || c in keys
      decreases |rest|
    {
      var c :| c in rest;
      keys, values := keys + [c], values + [d[c]];
      rest := rest - {c};
    }
  }

  /** Reading a pair dict out as lists gives a matching of values (servers)
      against keys (clients). */
  lemma DictListsMatching(d: map<int, int>, keys: seq<int>, values: seq<int>)
    requires IsPairDict(d)
    requires |keys| == |values| && NoDups(keys)
    requires forall i :: 0 <= i < |keys| ==> keys[i] in d && values[i] == d[keys[i]]
    ensures IsMatching(values, keys)
  {
  }

  /** Every value of the dict shows up in the value list. */
  lemma DictListsValues<K, V>(d: map<K, V>, keys: seq<K>, values: seq<V>, v: V)
    requires |keys| == |values| && (forall c :: c in d <==> c in keys)
    requires forall i :: 0 <= i < |keys| ==> keys[i] in d && values[i] == d[keys[i]]
    ensures v in d.Values <==> v in values
  {
    if v in d.Values {
      var c :| c in d && d[c] == v;
      var i :| 0 <= i < |keys| && keys[i] == c;
      assert values[i] == v;
    }
    if v in values {
      var i :| 0 <= i < |values| && values[i] == v;
      assert d[keys[i]] == v;
    }
  }

  /** The key list and the value list of a pair dict: a matching of the
      values (servers) against the keys (clients) that lists every key and
      every value. */
  method PairDictLists(d: map<int, int>) returns (servers: seq<int>, clients: seq<int>)
    requires IsPairDict(d)
    ensures IsMatching(servers, clients) && |clients| == |d|
    ensures forall i :: 0 <= i < |clients| ==> clients[i] in d && servers[i] == d[clients[i]]
    ensures forall x :: x in d <==> x in clients
    ensures forall x :: x in d.Values <==> x in servers
  {
    clients, servers := DictLists(d);
    DictListsMatching(d, clients, servers);
    forall x
      ensures x in d.Values <==> x in servers
    {
      DictListsValues(d, clients, servers, x);
    }
  }

  /** The state of a loop that pairs up the indices `first .. last-1` into a
      pair dict: the pool holds, without repeats, exactly the indices that no
      entry of the dict uses. */
  ghost predicate DictPool(first: int, last: int, pool: seq<int>, d: map<int, int>)
  {
    && NoDups(pool)
    && IsPairDict(d)
    && (forall x :: x in pool <==> first <= x < last && x !in d && x !in d.Values)
    && (forall c :: c in d ==> first <= c < last && first <= d[c] < last)
  }

  /** Two matchings over value ranges split at `bound` combine into one. */
  lemma MatchingAppend(s1: seq<int>, c1: seq<int>, s2: seq<int>, c2: seq<int>, bound: int)
    requires IsMatching(s1, c1) && IsMatching(s2, c2)
    requires forall i :: 0 <= i < |s1| ==> s1[i] < bound && c1[i] < bound
    requires forall i :: 0 <= i < |s2| ==> bound <= s2[i] && bound <= c2[i]
    ensures IsMatching(s1 + s2, c1 + c2)
  {
    var s, c := s1 + s2, c1 + c2;
    forall i, j | 0 <= i < j < |s| ensures s[i] != s[j] {
      if j < |s1| {
        assert s[i] == s1[i] && s[j] == s1[j];
      } else if i >= |s1| {
        assert s[i] == s2[i - |s1|] && s[j] == s2[j - |s1|];
      }
    }
    forall i, j | 0 <= i < j < |c| ensures c[i] != c[j] {
      if j < |c1| {
        assert c[i] == c1[i] && c[j] == c1[j];
      } else if i >= |c1| {
        assert c[i] == c2[i - |c1|] && c[j] == c2[j - |c1|];
      }
    }
    forall i, j | 0 <= i < |s| && 0 <= j < |c| ensures s[i] != c[j] {
      if i < |s1| && j < |c1| {
        assert s[i] == s1[i] && c[j] == c1[j];
      } else if i >= |s1| && j >= |c1| {
        assert s[i] == s2[i - |s1|] && c[j] == c2[j - |c1|];
      }
    }
  }

  /** Removing an element from a list without duplicates removes exactly that
      element and keeps the list free of duplicates. */
  lemma RemoveFirstNoDups<T>(s: seq<T>, y: T)
    requires NoDups(s) && y in s
    ensures NoDups(RemoveFirst(s, y))
    ensures forall x :: x in RemoveFirst(s, y) <==> x in s && x != y
  {
    var r := RemoveFirst(s, y);
    NoDupsOfSubBag(r, s);
    NoDupsCount(s, y);
    forall x
      ensures x in r <==> x in s && x != y
    {
      assert x in r <==> multiset(r)[x] > 0;
      assert x in s <==> multiset(s)[x] > 0;
    }
  }

  /** Two lists without duplicates and with no element in common append to a
      list without duplicates. */
  lemma NoDupsAppend<T>(a: seq<T>, b: seq<T>)
    requires NoDups(a) && NoDups(b) && Disjoint(a, b)
    ensures NoDups(a + b)
  {
    var s := a + b;
    forall i, j | 0 <= i < j < |s|
      ensures s[i] != s[j]
    {
      if j < |a| {
        assert s[i] == a[i] && s[j] == a[j];
      } else if |a| <= i {
        assert s[i] == b[i - |a|] && s[j] == b[j - |a|];
      } else {
        assert s[i] == a[i] && s[j] == b[j - |a|];
      }
    }
  }

  /** Adding a new key adds exactly its value to the dict's values. */
  lemma MapUpdateValues<K, V>(d: map<K, V>, c: K, v: V)
    requires c !in d
    ensures d[c := v].Values == d.Values + {v}
  {
    var e := d[c := v];
    forall w | w in e.Values ensures w in d.Values + {v} {
      var c' :| c' in e && e[c'] == w;
      if c' != c {
        assert c' in d && d[c'] == w;
      }
    }
    forall w | w in d.Values ensures w in e.Values {
      var c' :| c' in d && d[c'] == w;
      assert c' in e && e[c'] == w;
    }
    assert c in e && e[c] == v;
  }
}
