/**
 * The node numbers of the host tables. A rank's node is the number of hosts met so far, less one, which names
 * its host's node only while each host's ranks are consecutive.
 */
module HostTables {
  import opened Grouping

  ghost function Met<H>(hosts: seq<H>, n: nat): set<H>
    requires n <= |hosts|
  {
    set i | 0 <= i < n :: hosts[i]
  }

  ghost function NodeId<H>(hosts: seq<H>, r: nat): int
    requires r < |hosts|
  {
    |Met(hosts, r + 1)| - 1
  }

  ghost function NodeIds<H>(hosts: seq<H>): (ids: seq<int>)
    ensures |ids| == |hosts|
  {
    seq(|hosts|, r requires 0 <= r < |hosts| => NodeId(hosts, r))
  }

  ghost predicate Consecutive<H>(hosts: seq<H>) {
    forall i, j, k | 0 <= i < j < k < |hosts| && hosts[i] == hosts[k] :: hosts[j] == hosts[i]
  }

  lemma MetStep<H>(hosts: seq<H>, n: nat)
    requires n < |hosts|
    ensures Met(hosts, n + 1) == Met(hosts, n) + {hosts[n]}
    ensures |Met(hosts, n + 1)| == |Met(hosts, n)| + if hosts[n] in Met(hosts, n) then 0 else 1
  {
    assert Met(hosts, n + 1) == Met(hosts, n) + {hosts[n]};
  }

  lemma {:induction false} MetGrows<H>(hosts: seq<H>, m: nat, n: nat)
    requires m <= n <= |hosts|
    ensures |Met(hosts, m)| <= |Met(hosts, n)|
    ensures |Met(hosts, m)| == |Met(hosts, n)| <==> forall i | m <= i < n :: hosts[i] in Met(hosts, m)
    decreases n
  {
    if m < n {
      MetGrows(hosts, m, n - 1);
      MetStep(hosts, n - 1);
      assert Met(hosts, m) <= Met(hosts, n - 1);
      if |Met(hosts, m)| == |Met(hosts, n - 1)| { assert Met(hosts, n - 1) == Met(hosts, m); }
    }
  }

  /** Between two ranks the node number stays the same exactly when no new host is met. */
  lemma SameNode<H>(hosts: seq<H>, r: nat, s: nat)
    requires r < s < |hosts|
    ensures NodeId(hosts, r) <= NodeId(hosts, s)
    ensures NodeId(hosts, r) == NodeId(hosts, s) <==> forall i | r < i <= s :: hosts[i] in Met(hosts, r + 1)
  {
    MetGrows(hosts, r + 1, s + 1);
  }

  lemma ConsecutivePair<H>(hosts: seq<H>, r: nat, s: nat)
    requires Consecutive(hosts) && r < s < |hosts|
    ensures NodeId(hosts, r) == NodeId(hosts, s) <==> hosts[r] == hosts[s]
  {
    SameNode(hosts, r, s);
    if hosts[r] == hosts[s] {
      forall i | r < i <= s ensures hosts[i] in Met(hosts, r + 1) {
        assert hosts[i] == hosts[r];
        assert hosts[r] in Met(hosts, r + 1);
      }
    }
    if hosts[s] in Met(hosts, r + 1) {
      var i :| 0 <= i < r + 1 && hosts[i] == hosts[s];
      assert i < r ==> hosts[r] == hosts[i];
    }
  }

  ghost predicate NodesAreHosts<H>(hosts: seq<H>) {
    forall r, s | 0 <= r < |hosts| && 0 <= s < |hosts| :: NodeId(hosts, r) == NodeId(hosts, s) <==> hosts[r] == hosts[s]
  }

  /** Two ranks share a node exactly when they share a host, for all pairs, if and only if every host's ranks are consecutive. */
  lemma NodesAreHostsIffConsecutive<H>(hosts: seq<H>)
    ensures NodesAreHosts(hosts) <==> Consecutive(hosts)
  {
    if Consecutive(hosts) {
      forall r: nat, s: nat | r < |hosts| && s < |hosts|
        ensures NodeId(hosts, r) == NodeId(hosts, s) <==> hosts[r] == hosts[s]
      {
        if r < s { ConsecutivePair(hosts, r, s); }
        if s < r { ConsecutivePair(hosts, s, r); }
      }
    }
    if NodesAreHosts(hosts) {
      forall i: nat, j: nat, k: nat | i < j < k < |hosts| && hosts[i] == hosts[k]
        ensures hosts[j] == hosts[i]
      {
        assert NodeId(hosts, i) == NodeId(hosts, k);
        SameNode(hosts, i, j);
        SameNode(hosts, j, k);
      }
    }
  }

  /** The local rank: how many earlier ranks are on the same host. */
  ghost function LocalId<H>(hosts: seq<H>, r: nat): nat
    requires r < |hosts|
  {
    |Members(hosts, hosts[r], r)|
  }

  /** Looking up the node and the local rank of r in the node table gives r. */
  ghost predicate RoundTrips<H>(hosts: seq<H>, r: nat)
    requires r < |hosts|
  {
    var node := Members(NodeIds(hosts), NodeId(hosts, r), |hosts|);
    LocalId(hosts, r) < |node| && node[LocalId(hosts, r)] == r
  }

  /** The last rank up to r at which a host was met for the first time. */
  ghost function LastNew<H>(hosts: seq<H>, r: nat): nat
    requires r < |hosts|
  {
    if r == 0 || hosts[r] !in Met(hosts, r) then r else LastNew(hosts, r - 1)
  }

  lemma {:induction false} LastNewBelow<H>(hosts: seq<H>, r: nat)
    requires r < |hosts|
    ensures LastNew(hosts, r) <= r
  {
    if r > 0 && hosts[r] in Met(hosts, r) { LastNewBelow(hosts, r - 1); }
  }

  lemma EarlierNode<H>(hosts: seq<H>, s: nat, r: nat)
    requires s < r < |hosts| && hosts[r] !in Met(hosts, r)
    ensures NodeId(hosts, s) < NodeId(hosts, r)
  {
    MetStep(hosts, r);
    MetGrows(hosts, s + 1, r);
  }

  /** A node begins where a host is new. */
  lemma NewNode<H>(hosts: seq<H>, r: nat)
    requires r < |hosts| && hosts[r] !in Met(hosts, r)
    ensures Members(NodeIds(hosts), NodeId(hosts, r), r) == []
  {
    var ids, id := NodeIds(hosts), NodeId(hosts, r);
    forall s: nat | s < r ensures ids[s] != id { EarlierNode(hosts, s, r); }
    NoMembers(ids, id, r);
  }

  /** The ranks of a node before r are those since a host was last new. */
  lemma {:induction false} NodeBefore<H>(hosts: seq<H>, r: nat)
    requires r < |hosts|
    ensures |Members(NodeIds(hosts), NodeId(hosts, r), r)| == r - LastNew(hosts, r)
  {
    LastNewBelow(hosts, r);
    if r > 0 {
      if hosts[r] in Met(hosts, r) {
        MetStep(hosts, r);
        assert NodeIds(hosts)[r - 1] == NodeId(hosts, r);
        NodeBefore(hosts, r - 1);
      } else {
        NewNode(hosts, r);
      }
    }
  }

  /**
   * The round trip of a rank, exactly: it succeeds if and only if the rank has as many earlier ranks on its host
   * as there are ranks since a host was last new.
   */
  lemma HostRoundTripIff<H>(hosts: seq<H>, r: nat)
    requires r < |hosts|
    ensures RoundTrips(hosts, r) <==> LocalId(hosts, r) == r - LastNew(hosts, r)
  {
    var ids, id, p := NodeIds(hosts), NodeId(hosts, r), LocalId(hosts, r);
    assert ids[r] == id;
    NodeBefore(hosts, r);
    MemberAt(ids, r, |hosts|);
    if RoundTrips(hosts, r) { MemberIs(ids, id, |hosts|, p); }
  }

  /** When every host's ranks are consecutive, every rank's round trip succeeds. */
  lemma HostRoundTrip<H>(hosts: seq<H>, r: nat)
    requires Consecutive(hosts) && r < |hosts|
    ensures RoundTrips(hosts, r)
  {
    NodesAreHostsIffConsecutive(hosts);
    assert NodeIds(hosts)[r] == NodeId(hosts, r);
    SamePlace(hosts, NodeIds(hosts), r, r);
    MemberAt(NodeIds(hosts), r, |hosts|);
  }

  /** Hosts A, B, A are not consecutive, and every round trip succeeds all the same. */
  lemma ReturningHost<H>(a: H, b: H)
    requires a != b
    ensures var hosts := [a, b, a];
            !Consecutive(hosts) && forall r: nat | r < 3 :: RoundTrips(hosts, r)
  {
    var hosts := [a, b, a];
    assert hosts[0] == hosts[2] != hosts[1];
    EarlierOfThree(hosts);
    assert hosts[1] !in Met(hosts, 1) && hosts[2] in Met(hosts, 2);
    forall r: nat | r < 3 ensures RoundTrips(hosts, r) { HostRoundTripIff(hosts, r); }
  }

  lemma EarlierOfThree<H>(hosts: seq<H>)
    requires |hosts| == 3 && hosts[0] == hosts[2] != hosts[1]
    ensures Members(hosts, hosts[2], 2) == [0] && Members(hosts, hosts[1], 1) == []
  {
    assert Members(hosts, hosts[2], 0) == [] && Members(hosts, hosts[2], 1) == [0];
  }

  /** Hosts A, A, B, A: the last rank is put on the node of B, at a place that node does not have. */
  lemma InterleavedHosts<H>(a: H, b: H)
    requires a != b
    ensures var hosts := [a, a, b, a];
            && NodeId(hosts, 3) == NodeId(hosts, 2) == 1 && NodeId(hosts, 0) == 0
            && LocalId(hosts, 3) == 2 && Members(NodeIds(hosts), 1, 4) == [2, 3]
  {
    var hosts := [a, a, b, a];
    assert Met(hosts, 0) == {};
    MetStep(hosts, 0);
    MetStep(hosts, 1);
    MetStep(hosts, 2);
    MetStep(hosts, 3);
    assert NodeIds(hosts) == [0, 0, 1, 1];
    MembersOfFour(NodeIds(hosts));
    MembersOfHosts(hosts);
  }

  lemma MembersOfFour(ids: seq<int>)
    requires ids == [0, 0, 1, 1]
    ensures Members(ids, 1, 4) == [2, 3]
  {
    assert Members(ids, 1, 0) == [] && Members(ids, 1, 1) == [] && Members(ids, 1, 2) == [];
    assert Members(ids, 1, 3) == [2];
  }

  lemma MembersOfHosts<H>(hosts: seq<H>)
    requires |hosts| == 4 && hosts[0] == hosts[1] == hosts[3] && hosts[2] != hosts[3]
    ensures |Members(hosts, hosts[3], 3)| == 2
  {
    assert Members(hosts, hosts[3], 1) == [0];
    assert Members(hosts, hosts[3], 2) == [0, 1];
  }
}
