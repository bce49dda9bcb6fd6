/** The part of the emulator's topology object that the builders use:
    `addSwitch`, `addHost` and `addLink` record node names and link tuples,
    in the order they are called. */
module Topology {
  import Pairing

  datatype Option<T> = None | Some(value: T)

  /** A link tuple handed to the emulator: two node names and the optional
      `bw` and `delay` keyword options, kept as opaque values. */
  datatype Link = Link(node1: string, node2: string, bw: Option<int>, delay: Option<string>)
  {
    /** True when the link has `name` at one of its two ends. */
    predicate Touches(name: string)
    {
      node1 == name || node2 == name
    }
  }

  /** A topology under construction: switches, hosts and links in the order
      they were added. */
  class Topo {
    var switches: seq<string>
    var hosts: seq<string>
    var links: seq<Link>

    constructor ()
      ensures switches == [] && hosts == [] && links == []
    {
      switches, hosts, links := [], [], [];
    }

    /** Registers a switch and returns its name. */
    method AddSwitch(name: string) returns (r: string)
      modifies this`switches
      ensures r == name
      ensures switches == old(switches) + [name]
    {
      switches := switches + [name];
      r := name;
    }

    /** Registers a host and returns its name. */
    method AddHost(name: string) returns (r: string)
      modifies this`hosts
      ensures r == name
      ensures hosts == old(hosts) + [name]
    {
      hosts := hosts + [name];
      r := name;
    }

    /** Records a link between two nodes. */
    method AddLink(node1: string, node2: string, bw: Option<int>, delay: Option<string>)
      modifies this`links
      ensures links == old(links) + [Link(node1, node2, bw, delay)]
    {
      links := links + [Link(node1, node2, bw, delay)];
    }

    /** `AddLink` for the link at position `x` of a `row` of links being
        added after `start`. */
    method AddRowLink(ghost start: seq<Link>, ghost row: seq<Link>, x: nat, node1: string, node2: string, bw: Option<int>, delay: Option<string>)
      requires x < |row| && row[x] == Link(node1, node2, bw, delay)
      requires links == start + row[..x]
      modifies this`links
      ensures links == start + row[..x + 1]
    {
      AddLink(node1, node2, bw, delay);
      AppendStep(start, row, x);
    }
  }

  /** The concatenation of `rows`, in order: what nested loops append when the
      inner loop appends row `i` during round `i` of the outer one. */
  function Flatten<T>(rows: seq<seq<T>>): (r: seq<T>)
    ensures |rows| == 0 ==> r == []
  {
    if |rows| == 0 then [] else Flatten(rows[..|rows| - 1]) + rows[|rows| - 1]
  }

  /** One more round of the outer loop appends one more row. */
  lemma FlattenStep<T>(rows: seq<seq<T>>, i: nat)
    requires i < |rows|
    ensures Flatten(rows[..i + 1]) == Flatten(rows[..i]) + rows[i]
  {
    assert rows[..i + 1][..i] == rows[..i];
  }

  /** Appending element `x` of `row` extends the prefix `row[..x]`. */
  lemma AppendStep<T>(s: seq<T>, row: seq<T>, x: nat)
    requires x < |row|
    ensures s + row[..x] + [row[x]] == s + row[..x + 1]
  {
    assert row[..x + 1] == row[..x] + [row[x]];
  }

  /** Appending row `i` extends the concatenation of the rows before it. */
  lemma FlattenAppend<T>(s: seq<T>, rows: seq<seq<T>>, i: nat)
    requires i < |rows|
    ensures s + Flatten(rows[..i]) + rows[i] == s + Flatten(rows[..i + 1])
  {
    FlattenStep(rows, i);
  }

  /** The prefix of all rows is all rows. */
  lemma TakeAll<T>(rows: seq<T>)
    ensures rows[..|rows|] == rows
  {
  }

  /** Three stages appended one after the other append their concatenation. */
  lemma AppendThree<T>(s: seq<T>, a: seq<T>, b: seq<T>, c: seq<T>)
    ensures s + a + b + c == s + (a + b + c)
  {
  }

  /** Position `n` of three lists appended, past the first two, is in the
      third. */
  lemma ThirdPart<T>(a: seq<T>, b: seq<T>, c: seq<T>, n: nat)
    requires |a| + |b| <= n < |a| + |b| + |c|
    ensures (a + b + c)[n] == c[n - |a| - |b|]
  {
  }

  /** When every row has `h` elements, element `x` of row `i` sits at position
      `i * h + x` of the concatenation. */
  lemma {:induction false} FlattenAt<T>(rows: seq<seq<T>>, h: nat, i: nat, x: nat)
    requires forall j :: 0 <= j < |rows| ==> |rows[j]| == h
    requires i < |rows| && x < h
    ensures |Flatten(rows)| == |rows| * h
    ensures i * h + x < |Flatten(rows)| && Flatten(rows)[i * h + x] == rows[i][x]
  {
    var m := |rows| - 1;
    var init := rows[..m];
    FlattenLength(init, h);
    assert |Flatten(rows)| == m * h + h;
    if i < m {
      FlattenAt(init, h, i, x);
    } else {
      assert Flatten(rows)[m * h + x] == rows[m][x];
    }
  }

  lemma {:induction false} FlattenLength<T>(rows: seq<seq<T>>, h: nat)
    requires forall j :: 0 <= j < |rows| ==> |rows[j]| == h
    ensures |Flatten(rows)| == |rows| * h
  {
    if |rows| > 0 {
      FlattenLength(rows[..|rows| - 1], h);
    }
  }

  /** Every element of the concatenation comes from some row. */
  lemma {:induction false} FlattenMember<T>(rows: seq<seq<T>>, e: T)
    requires e in Flatten(rows)
    ensures exists i, j :: 0 <= i < |rows| && 0 <= j < |rows[i]| && rows[i][j] == e
  {
    var m := |rows| - 1;
    if e in rows[m] {
      var j :| 0 <= j < |rows[m]| && rows[m][j] == e;
    } else {
      assert e in Flatten(rows[..m]);
      FlattenMember(rows[..m], e);
      var i, j :| 0 <= i < m && 0 <= j < |rows[..m][i]| && rows[..m][i][j] == e;
      assert rows[i][j] == e;
    }
  }

  /** Every element of every row is in the concatenation. */
  lemma {:induction false} FlattenContains<T>(rows: seq<seq<T>>, i: nat, e: T)
    requires i < |rows| && e in rows[i]
    ensures e in Flatten(rows)
  {
    var m := |rows| - 1;
    if i < m {
      assert rows[..m][i] == rows[i];
      FlattenContains(rows[..m], i, e);
    }
  }

  /** Rows without duplicates that share no element concatenate to a list
      without duplicates. */
  lemma {:induction false} FlattenNoDups<T>(rows: seq<seq<T>>)
    requires forall i :: 0 <= i < |rows| ==> Pairing.NoDups(rows[i])
    requires forall i, j, x, y :: 0 <= i < j < |rows| && 0 <= x < |rows[i]| && 0 <= y < |rows[j]| ==> rows[i][x] != rows[j][y]
    ensures Pairing.NoDups(Flatten(rows))
  {
    if |rows| > 0 {
      var m := |rows| - 1;
      var init := rows[..m];
      assert forall i :: 0 <= i < m ==> init[i] == rows[i];
      FlattenNoDups(init);
      var before := Flatten(init);
      forall p, q | 0 <= p < |before| && 0 <= q < |rows[m]|
        ensures before[p] != rows[m][q]
      {
        FlattenMember(init, before[p]);
        var i, x :| 0 <= i < |init| && 0 <= x < |init[i]| && init[i][x] == before[p];
        assert rows[i][x] == before[p];
      }
      Pairing.NoDupsAppend(before, rows[m]);
    }
  }
}
