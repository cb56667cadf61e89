/** CommStateX: the topology tables as its setters fill them, and the getters that read them. */
module CommState {
  import opened Arithmetic
  import opened Verbs
  import opened Grouping
  import Hosts = HostTables
  import Device = DeviceRanks

  datatype NvlFabricTopology = NvlFabricTopology(supportNvlFabric: bool, clusterId: string, cliqueId: int)

  datatype NvlFabricRankState = NvlFabricRankState(domain: Membership, clique: Membership)

  datatype RankState = RankState(nodeId: int, localRank: int, nLocalRanks: int, localRankToRanks: seq<nat>)

  /** The host a rank counts as on, with the debug modes that replace its name. */
  datatype HostMode = AsIs | Nolocal | Vnode(nLocalRanks: nat)
  datatype Host = Named(name: string) | Alone(rank: nat) | Virtual(node: nat)

  predicate ValidMode(mode: HostMode) { mode.Vnode? ==> mode.nLocalRanks >= 1 }

  function HostOf(mode: HostMode, name: string, rank: nat): Host
    requires ValidMode(mode)
  {
    match mode
    case AsIs => Named(name)
    case Nolocal => Alone(rank)
    case Vnode(n) => Virtual(rank / n)
  }

  ghost function HostsOf(mode: HostMode, names: seq<string>): (hosts: seq<Host>)
    requires ValidMode(mode)
    ensures |hosts| == |names|
  {
    seq(|names|, r requires 0 <= r < |names| => HostOf(mode, names[r], r))
  }

  /** A rank is grouped by cluster, or by clique when cliques are on; one without fabric is in no group. */
  function DomainKey(t: NvlFabricTopology): Option<string> { if t.supportNvlFabric then Some(t.clusterId) else None }

  function CliqueKey(t: NvlFabricTopology, on: bool): Option<int> { if t.supportNvlFabric && on then Some(t.cliqueId) else None }

  ghost function DomainKeys(topos: seq<NvlFabricTopology>): (keys: seq<Option<string>>)
    ensures |keys| == |topos|
  {
    seq(|topos|, i requires 0 <= i < |topos| => DomainKey(topos[i]))
  }

  ghost function CliqueKeys(topos: seq<NvlFabricTopology>, on: bool): (keys: seq<Option<int>>)
    ensures |keys| == |topos|
  {
    seq(|topos|, i requires 0 <= i < |topos| => CliqueKey(topos[i], on))
  }

  /** The state of each rank after the first pass. */
  ghost predicate FirstStates(states: seq<NvlFabricRankState>, domains: seq<Membership>, cliques: seq<Membership>) {
    |states| == |domains| == |cliques| && forall r | 0 <= r < |states| :: states[r] == NvlFabricRankState(domains[r], cliques[r])
  }

  class CommStateX {
    const rank_: nat
    const nRanks_: nat
    var nvlFabricTopos: seq<NvlFabricTopology>
    var nvlFabricEnabled: bool
    var nvlFabricCliqueEnabled: bool
    var nvlFabricRankStates: seq<NvlFabricRankState>
    var myNvlFabricRankState: NvlFabricRankState
    var nvlDomainRanks: seq<seq<nat>>
    var cliqueRanks: seq<seq<nat>>
    var rankStates: seq<RankState>
    var nodeRanks: seq<seq<nat>>
    var hostToRanks: map<Host, seq<nat>>

    constructor (rank: nat, nRanks: nat)
      requires rank < nRanks
      ensures rank_ == rank && nRanks_ == nRanks && cliqueRanks == [] && !nvlFabricEnabled
    {
      rank_, nRanks_ := rank, nRanks;
      nvlFabricTopos, nvlFabricEnabled, nvlFabricCliqueEnabled := [], false, false;
      nvlFabricRankStates, myNvlFabricRankState := [], NvlFabricRankState(NO_MEMBERSHIP, NO_MEMBERSHIP);
      nvlDomainRanks, cliqueRanks, rankStates, nodeRanks, hostToRanks := [], [], [], [], map[];
    }

    // -------------------------------------------------------------- NVL fabric

    ghost function Domains(): seq<Option<string>> reads this { DomainKeys(nvlFabricTopos) }

    ghost function Cliques(): seq<Option<int>> reads this { CliqueKeys(nvlFabricTopos, nvlFabricCliqueEnabled) }

    /** The NVL tables as setNvlFabricTopos leaves them on a fresh object. */
    ghost predicate NvlTables()
      reads this
    {
      && |nvlFabricTopos| == nRanks_ && rank_ < nRanks_
      && (nvlFabricEnabled ==>
            && TablesFor(nvlFabricTopos, nvlFabricCliqueEnabled, nvlDomainRanks, cliqueRanks, nvlFabricRankStates)
            && myNvlFabricRankState == nvlFabricRankStates[rank_])
    }

    /** Both tables hold the groups of the ranks, and each rank's state its place in both. */
    static ghost predicate TablesFor(topos: seq<NvlFabricTopology>, cliquesOn: bool, domains: seq<seq<nat>>,
                                     cliques: seq<seq<nat>>, states: seq<NvlFabricRankState>)
    {
      && domains == GroupsFor(DomainKeys(topos)).ranks && cliques == GroupsFor(CliqueKeys(topos, cliquesOn)).ranks
      && |states| == |topos|
      && forall r | 0 <= r < |topos| ::
           states[r] == NvlFabricRankState(MembershipFor(DomainKeys(topos), r), MembershipFor(CliqueKeys(topos, cliquesOn), r))
    }

    /**
     * setNvlFabricTopos. `fabricOn` and `cliquesOn` are the configuration; `aborted` is the check at the end
     * that stops the program. It does so exactly when the clique table was not empty before: the table is not
     * cleared, unlike the others.
     */
    method SetNvlFabricTopos(topos: seq<NvlFabricTopology>, fabricOn: bool, cliquesOn: bool) returns (aborted: bool)
      requires |topos| == nRanks_ && rank_ < nRanks_
      modifies this
      ensures nvlFabricTopos == topos && (nvlFabricEnabled <==> fabricOn && topos[rank_].supportNvlFabric)
      ensures nvlFabricEnabled ==> (nvlFabricCliqueEnabled <==> cliquesOn)
      ensures aborted <==> nvlFabricEnabled && old(cliqueRanks) != []
      ensures !aborted ==> NvlTables()
      ensures rankStates == old(rankStates) && nodeRanks == old(nodeRanks) && hostToRanks == old(hostToRanks)
    {
      nvlFabricTopos, nvlFabricRankStates, nvlDomainRanks := topos, [], [];
      nvlFabricEnabled := fabricOn && topos[rank_].supportNvlFabric;
      if !nvlFabricEnabled {
        return false;
      }
      nvlFabricCliqueEnabled := cliquesOn;
      var dom, cli, full := BuildTables(topos, cliqueRanks, cliquesOn);
      nvlDomainRanks, cliqueRanks, nvlFabricRankStates := dom.ranks, cli.ranks, full;
      myNvlFabricRankState := nvlFabricRankStates[rank_];
      aborted := |dom.index| != |nvlDomainRanks| || |cli.index| != |cliqueRanks|;
    }

    /** Both passes, from the clique table as it is found. */
    static method BuildTables(topos: seq<NvlFabricTopology>, cliqueRanks: seq<seq<nat>>, cliquesOn: bool)
        returns (dom: Groups<string>, cli: Groups<int>, full: seq<NvlFabricRankState>)
      ensures |dom.index| == |dom.ranks| && |full| == |topos|
      ensures |cli.index| == |cli.ranks| <==> cliqueRanks == []
      ensures cliqueRanks == [] ==> TablesFor(topos, cliquesOn, dom.ranks, cli.ranks, full)
    {
      ghost var keys, cliqueKeys := DomainKeys(topos), CliqueKeys(topos, cliquesOn);
      ghost var cli0 := Groups<int>.Groups(map[], cliqueRanks);
      var states;
      dom, cli, states := FirstPasses(topos, cliqueRanks, cliquesOn);
      full := SecondPass(dom, cli, states);
      NewGroupsCounted(NewGroups(), keys, |topos|);
      NewGroupsCounted(cli0, cliqueKeys, |topos|);
    }

    /** The loop of the first pass, which places every rank in its domain and its clique. */
    static method FirstPasses(topos: seq<NvlFabricTopology>, cliqueRanks: seq<seq<nat>>, cliquesOn: bool)
        returns (dom: Groups<string>, cli: Groups<int>, states: seq<NvlFabricRankState>)
      ensures dom == FirstPass(NewGroups(), DomainKeys(topos), |topos|).0
      ensures cli == FirstPass(Groups(map[], cliqueRanks), CliqueKeys(topos, cliquesOn), |topos|).0
      ensures FirstStates(states, FirstPass(NewGroups(), DomainKeys(topos), |topos|).1,
                          FirstPass(Groups(map[], cliqueRanks), CliqueKeys(topos, cliquesOn), |topos|).1)
      ensures |states| == |topos|
    {
      dom, cli, states := Groups(map[], []), Groups(map[], cliqueRanks), [];
      ghost var ds: seq<Membership>, cs: seq<Membership> := [], [];
      for i := 0 to |topos|
        invariant (dom, ds) == FirstPass(NewGroups(), DomainKeys(topos), i)
        invariant (cli, cs) == FirstPass(Groups(map[], cliqueRanks), CliqueKeys(topos, cliquesOn), i)
        invariant FirstStates(states, ds, cs) && |states| == i
      {
        var domain, clique := NO_MEMBERSHIP, NO_MEMBERSHIP;
        dom, domain := Join(dom, DomainKey(topos[i]), i);
        cli, clique := Join(cli, CliqueKey(topos[i], cliquesOn), i);
        states := states + [NvlFabricRankState(domain, clique)];
        ds, cs := ds + [domain], cs + [clique];
      }
    }

    /** The body of the first pass, for one kind of group. */
    static method Join<K(==)>(g: Groups<K>, key: Option<K>, r: nat) returns (g': Groups<K>, m: Membership)
      ensures (g', m) == JoinRank(g, key, r)
    {
      g', m := g, NO_MEMBERSHIP;
      if key.Some? {
        if key.value !in g'.index {
          g' := Groups(g'.index[key.value := |g'.ranks|], g'.ranks + [[]]);
        }
        var index := g'.index[key.value];
        if index < |g'.ranks| {
          m := Membership(index, |g'.ranks[index]|, -1, []);
          g' := g'.(ranks := g'.ranks[index := g'.ranks[index] + [r]]);
        }
      }
    }

    /** The second pass. */
    static method SecondPass(dom: Groups<string>, cli: Groups<int>, states: seq<NvlFabricRankState>) returns (full: seq<NvlFabricRankState>)
      ensures |full| == |states|
      ensures forall r | 0 <= r < |full| :: full[r] == NvlFabricRankState(Filled(dom, states[r].domain), Filled(cli, states[r].clique))
    {
      full := states;
      for i := 0 to |states|
        invariant |full| == |states| && forall r | i <= r < |full| :: full[r] == states[r]
        invariant forall r | 0 <= r < i :: full[r] == NvlFabricRankState(Filled(dom, states[r].domain), Filled(cli, states[r].clique))
      {
        full := full[i := NvlFabricRankState(Filled(dom, full[i].domain), Filled(cli, full[i].clique))];
      }
    }

    // -------------------------------------------------------------- hosts

    /** The host tables as setRankStatesTopologies leaves them. */
    ghost predicate HostTablesFor(hosts: seq<Host>)
      reads this
    {
      && |rankStates| == |hosts| && HostLists(hostToRanks, hosts, |hosts|) && NodeTable(nodeRanks, Hosts.NodeIds(hosts), |hostToRanks|)
      && forall r | 0 <= r < |hosts| ::
           rankStates[r] == RankState(Hosts.NodeId(hosts, r), Hosts.LocalId(hosts, r), |Members(hosts, hosts[r], |hosts|)|,
                                      Members(hosts, hosts[r], |hosts|))
    }

    /** setRankStatesTopologies, for ranks given in rank order */
    method SetRankStatesTopologies(names: seq<string>, mode: HostMode)
      requires ValidMode(mode)
      modifies `rankStates, `nodeRanks, `hostToRanks
      ensures HostTablesFor(HostsOf(mode, names)) && |rankStates| == |names|
      ensures ListsByName(rankStates, mode, names)
    {
      FillHostTables(names, mode);
      AllListedByName(mode, names);
    }

    /** Each rank lists the ranks of the same name as it is, or itself alone, or its block of n ranks. */
    static ghost predicate ListsByName(states: seq<RankState>, mode: HostMode, names: seq<string>)
      requires ValidMode(mode) && |states| == |names|
    {
      forall r: nat, s: nat | r < |names| && s < |names| :: ListsIff(states, mode, names, r, s)
    }

    static ghost predicate ListsIff(states: seq<RankState>, mode: HostMode, names: seq<string>, r: nat, s: nat)
      requires ValidMode(mode) && |states| == |names| && r < |names| && s < |names|
    {
      s in states[r].localRankToRanks <==>
        match mode case AsIs => names[s] == names[r] case Nolocal => s == r case Vnode(n) => s / n == r / n
    }

    lemma AllListedByName(mode: HostMode, names: seq<string>)
      requires ValidMode(mode) && HostTablesFor(HostsOf(mode, names))
      ensures |rankStates| == |names| && ListsByName(rankStates, mode, names)
    {
      forall r: nat, s: nat | r < |names| && s < |names| ensures ListsIff(rankStates, mode, names, r, s) {
        ListedByName(mode, names, r, s);
      }
    }

    /** The three loops. */
    method FillHostTables(names: seq<string>, mode: HostMode)
      requires ValidMode(mode)
      modifies `rankStates, `nodeRanks, `hostToRanks
      ensures HostTablesFor(HostsOf(mode, names))
    {
      ghost var hosts := HostsOf(mode, names);
      var states;
      hostToRanks, states := ListHosts(names, mode);
      nodeRanks := FillNodes(hosts, states, |hostToRanks|);
      rankStates := CompleteStates(names, mode, states, hostToRanks);
    }

    lemma ListedByName(mode: HostMode, names: seq<string>, r: nat, s: nat)
      requires ValidMode(mode) && HostTablesFor(HostsOf(mode, names)) && r < |names| && s < |names|
      ensures s in rankStates[r].localRankToRanks <==>
        match mode case AsIs => names[s] == names[r] case Nolocal => s == r case Vnode(n) => s / n == r / n
    {
      RankOfHost(HostsOf(mode, names), r, s);
      SameHostIs(mode, names, s, r);
    }

    /** A rank lists the ranks of its host. */
    lemma RankOfHost(hosts: seq<Host>, r: nat, s: nat)
      requires HostTablesFor(hosts) && r < |hosts| && s < |hosts|
      ensures s in rankStates[r].localRankToRanks <==> hosts[s] == hosts[r]
    {
      MembersAre(hosts, hosts[r], |hosts|, s);
    }

    /** The ranks listed for a host, none if it was not met. */
    static function HostList(lists: map<Host, seq<nat>>, host: Host): seq<nat> { if host in lists then lists[host] else [] }

    /** One list per host met, which holds its ranks so far. */
    static ghost predicate HostLists(lists: map<Host, seq<nat>>, hosts: seq<Host>, n: nat) {
      && n <= |hosts| && lists.Keys == Hosts.Met(hosts, n)
      && forall h | h in lists :: lists[h] == Members(hosts, h, n)
    }

    /** The ranks of each node number, ascending. */
    static ghost predicate NodeTable(table: seq<seq<nat>>, ids: seq<int>, size: nat) {
      |table| == size && forall i | 0 <= i < size :: table[i] == Members(ids, i, |ids|)
    }

    /** The first loop: a rank's node is the number of hosts so far less one. */
    static method ListHosts(names: seq<string>, mode: HostMode) returns (lists: map<Host, seq<nat>>, states: seq<RankState>)
      requires ValidMode(mode)
      ensures var hosts := HostsOf(mode, names);
              HostLists(lists, hosts, |hosts|) && |states| == |hosts| && StatesPlaced(states, hosts)
    {
      ghost var hosts := HostsOf(mode, names);
      lists, states := map[], [];
      NoHostsYet(hosts);
      for r := 0 to |names|
        invariant HostLists(lists, hosts, r) && |states| == r && StatesPlaced(states, hosts)
      {
        var state;
        lists, state := ListOne(lists, HostOf(mode, names[r], r), r, hosts);
        states := states + [state];
      }
    }

    /** The first ranks have their node number and local rank. */
    static ghost predicate StatesPlaced(states: seq<RankState>, hosts: seq<Host>) {
      && |states| <= |hosts|
      && forall r | 0 <= r < |states| :: states[r] == RankState(Hosts.NodeId(hosts, r), Hosts.LocalId(hosts, r), -1, [])
    }

    static lemma NoHostsYet(hosts: seq<Host>)
      ensures HostLists(map[], hosts, 0)
    {
    }

    static method ListOne(lists: map<Host, seq<nat>>, host: Host, r: nat, ghost hosts: seq<Host>)
        returns (lists': map<Host, seq<nat>>, state: RankState)
      requires r < |hosts| && host == hosts[r] && HostLists(lists, hosts, r)
      ensures HostLists(lists', hosts, r + 1) && state == RankState(Hosts.NodeId(hosts, r), Hosts.LocalId(hosts, r), -1, [])
    {
      HostListsStep(lists, hosts, r);
      lists' := lists[host := HostList(lists, host) + [r]];
      state := RankState(|lists'| - 1, |lists'[host]| - 1, -1, []);
    }

    /** The map has one entry for each host met. */
    static lemma EntriesAreHosts(lists: map<Host, seq<nat>>, hosts: seq<Host>, r: nat, after: map<Host, seq<nat>>)
      requires r < |hosts| && lists.Keys == Hosts.Met(hosts, r) && after.Keys == lists.Keys + {hosts[r]}
      ensures after.Keys == Hosts.Met(hosts, r + 1) && |after| - 1 == Hosts.NodeId(hosts, r)
    {
      Hosts.MetStep(hosts, r);
      assert |after| == |after.Keys|;
    }

    static lemma HostListsStep(lists: map<Host, seq<nat>>, hosts: seq<Host>, r: nat)
      requires r < |hosts| && HostLists(lists, hosts, r)
      ensures var host := hosts[r];
              var after := lists[host := HostList(lists, host) + [r]];
              HostLists(after, hosts, r + 1) && |after| - 1 == Hosts.NodeId(hosts, r) && |after[host]| - 1 == Hosts.LocalId(hosts, r)
    {
      var host := hosts[r];
      var after := lists[host := HostList(lists, host) + [r]];
      EntriesAreHosts(lists, hosts, r, after);
      if host !in lists { NoMembers(hosts, host, r); }
    }

    /** The second loop: every rank goes to the list of its node number. */
    static method FillNodes(ghost hosts: seq<Host>, states: seq<RankState>, size: nat) returns (table: seq<seq<nat>>)
      requires |states| == |hosts| && size == |Hosts.Met(hosts, |hosts|)|
      requires forall r | 0 <= r < |hosts| :: states[r].nodeId == Hosts.NodeId(hosts, r)
      ensures NodeTable(table, Hosts.NodeIds(hosts), size)
    {
      ghost var ids := Hosts.NodeIds(hosts);
      table := seq(size, i => []);
      for r := 0 to |states|
        invariant |table| == size && forall i | 0 <= i < size :: table[i] == Members(ids, i, r)
      {
        Hosts.MetGrows(hosts, r + 1, |hosts|);
        Hosts.MetGrows(hosts, 0, r);
        Hosts.MetStep(hosts, r);
        var node := states[r].nodeId;
        assert node == ids[r];
        NodeInRange(hosts, r);
        table := table[node := table[node] + [r]];
      }
    }

    static lemma NodeInRange(hosts: seq<Host>, r: nat)
      requires r < |hosts|
      ensures 0 <= Hosts.NodeId(hosts, r) < |Hosts.Met(hosts, |hosts|)|
    {
      Hosts.MetGrows(hosts, r + 1, |hosts|);
      assert hosts[r] in Hosts.Met(hosts, r + 1);
    }

    /** The third loop: the ranks of the host, and their number. */
    static method CompleteStates(names: seq<string>, mode: HostMode, states: seq<RankState>, lists: map<Host, seq<nat>>)
        returns (full: seq<RankState>)
      requires ValidMode(mode) && |states| == |names| && HostLists(lists, HostsOf(mode, names), |names|)
      ensures |full| == |names|
      ensures var hosts := HostsOf(mode, names);
              forall r | 0 <= r < |names| ::
                full[r] == states[r].(localRankToRanks := Members(hosts, hosts[r], |hosts|), nLocalRanks := |Members(hosts, hosts[r], |hosts|)|)
    {
      ghost var hosts := HostsOf(mode, names);
      full := [];
      for r := 0 to |names|
        invariant |full| == r
        invariant forall s | 0 <= s < r ::
          full[s] == states[s].(localRankToRanks := Members(hosts, hosts[s], |hosts|), nLocalRanks := |Members(hosts, hosts[s], |hosts|)|)
      {
        assert hosts[r] in Hosts.Met(hosts, |hosts|);
        var ranks := lists[HostOf(mode, names[r], r)];
        full := full + [states[r].(localRankToRanks := ranks, nLocalRanks := |ranks|)];
      }
    }

    /** The tables as initRankTopologyVnode leaves them on a fresh object. */
    ghost predicate VnodeTables(n: nat)
      reads this
    {
      && n >= 1 && |rankStates| == nRanks_
      && NodeTable(nodeRanks, Device.VNodes(nRanks_, n), nRanks_)
      && forall r | 0 <= r < nRanks_ :: rankStates[r] == RankState(r / n, r % n, n, VnodeRanks(r / n, n))
    }

    /** The ranks a full node has. */
    static function VnodeRanks(node: nat, n: nat): seq<nat> { seq(n, i requires 0 <= i => node * n + i) }

    /** The list of node i, as far as the table has one. */
    static function NodeList(table: seq<seq<nat>>, i: nat): seq<nat> { if i < |table| then table[i] else [] }

    /** The list of node i, and that of its virtual host, have grown by those of the first n ranks that are on it. */
    static ghost predicate NodeGrown(before: seq<seq<nat>>, table: seq<seq<nat>>, ids: seq<int>, n: nat, i: nat)
      requires n <= |ids|
    {
      NodeList(table, i) == NodeList(before, i) + Members(ids, i, n)
    }

    static ghost predicate HostGrown(before: map<Host, seq<nat>>, lists: map<Host, seq<nat>>, ids: seq<int>, n: nat, i: nat)
      requires n <= |ids|
    {
      HostList(lists, Virtual(i)) == HostList(before, Virtual(i)) + Members(ids, i, n)
    }

    /** The tables keep what they held and have grown by the first n ranks; other hosts are as before. */
    static ghost predicate Grown(nodes: seq<seq<nat>>, nodes': seq<seq<nat>>, lists: map<Host, seq<nat>>,
                                 lists': map<Host, seq<nat>>, ids: seq<int>, n: nat)
      requires n <= |ids|
    {
      && (forall i: nat | i < |nodes'| :: NodeGrown(nodes, nodes', ids, n, i))
      && (forall i: nat :: HostGrown(lists, lists', ids, n, i))
      && (forall host: Host | !host.Virtual? :: HostList(lists', host) == HostList(lists, host))
    }

    static ghost predicate RankStatesSet(states: seq<RankState>, n: nat)
      requires n >= 1
    {
      forall r | 0 <= r < |states| :: states[r] == RankState(r / n, r % n, n, VnodeRanks(r / n, n))
    }

    /**
     * initRankTopologyVnode. The tables are resized and not cleared, so the ranks join whatever their nodes and
     * hosts held before; it is meant for a fresh object.
     */
    method InitRankTopologyVnode(n: nat)
      requires n >= 1
      modifies `rankStates, `nodeRanks, `hostToRanks
      ensures |rankStates| == nRanks_ && RankStatesSet(rankStates, n)
      ensures |nodeRanks| == nRanks_
      ensures Grown(old(nodeRanks), nodeRanks, old(hostToRanks), hostToRanks, Device.VNodes(nRanks_, n), nRanks_)
      ensures old(nodeRanks) == [] ==> VnodeTables(n)
    {
      ghost var ids := Device.VNodes(nRanks_, n);
      ghost var lists, nodes := hostToRanks, nodeRanks;
      var kept := nodeRanks;
      rankStates, nodeRanks := [], seq(nRanks_, i requires 0 <= i => NodeList(kept, i));
      for r := 0 to nRanks_
        invariant |rankStates| == r && RankStatesSet(rankStates, n)
        invariant |nodeRanks| == nRanks_ && Grown(nodes, nodeRanks, lists, hostToRanks, ids, r)
      {
        var node := r / n;
        NodeBelow(r, n);
        rankStates := rankStates + [RankState(node, r % n, n, VnodeRanks(node, n))];
        var host := Virtual(node);
        RankJoins(nodes, nodeRanks, lists, hostToRanks, ids, r);
        hostToRanks := hostToRanks[host := HostList(hostToRanks, host) + [r]];
        nodeRanks := nodeRanks[node := nodeRanks[node] + [r]];
      }
      if nodes == [] { FreshTables(nodeRanks, lists, hostToRanks, ids); }
    }

    static lemma RankJoins(nodes: seq<seq<nat>>, nodes': seq<seq<nat>>, lists: map<Host, seq<nat>>,
                           lists': map<Host, seq<nat>>, ids: seq<int>, r: nat)
      requires r < |ids| && 0 <= ids[r] < |nodes'| && Grown(nodes, nodes', lists, lists', ids, r)
      ensures var i := ids[r];
              Grown(nodes, nodes'[i := nodes'[i] + [r]], lists, lists'[Virtual(i) := HostList(lists', Virtual(i)) + [r]], ids, r + 1)
    {
      var k, next := ids[r], r + 1;
      var after, hosts := nodes'[k := nodes'[k] + [r]], lists'[Virtual(k) := HostList(lists', Virtual(k)) + [r]];
      forall i: nat | i < |after| ensures NodeGrown(nodes, after, ids, next, i) { assert NodeGrown(nodes, nodes', ids, r, i); }
      forall i: nat ensures HostGrown(lists, hosts, ids, next, i) { assert HostGrown(lists, lists', ids, r, i); }
    }

    static lemma FreshTables(nodes: seq<seq<nat>>, lists: map<Host, seq<nat>>, lists': map<Host, seq<nat>>, ids: seq<int>)
      requires Grown([], nodes, lists, lists', ids, |ids|)
      ensures NodeTable(nodes, ids, |nodes|)
    {
      forall i: nat | i < |nodes| ensures nodes[i] == Members(ids, i, |ids|) { assert NodeGrown([], nodes, ids, |ids|, i); }
    }

    static lemma NodeBelow(r: nat, n: nat)
      requires n >= 1
      ensures r / n <= r
    {
      assert r == r / n * n + r % n;
      MulMonotone(1, n, r / n);
    }

    // -------------------------------------------------------------- getters

    /** Where CHECK_TOPO_AND_SET_RANK does not stop the program; -1 stands for the rank of this object. */
    predicate ValidRank(rank: int) reads this { |rankStates| > 0 && -1 <= rank < |rankStates| && rank_ < |rankStates| }

    function Resolve(rank: int): nat
      requires ValidRank(rank)
      reads this
    {
      if rank == -1 then rank_ else rank
    }

    predicate FabricReady() reads this { nvlFabricEnabled ==> |nvlFabricRankStates| == |rankStates| }

    /** The NVL state of a rank, with the shortcut for the rank of this object. */
    function NvlState(r: nat): NvlFabricRankState
      requires r < |nvlFabricRankStates|
      reads this
    {
      if r == rank_ then myNvlFabricRankState else nvlFabricRankStates[r]
    }

    function Node(rank: int): int
      requires ValidRank(rank) && FabricReady()
      reads this
    {
      var r := Resolve(rank);
      if nvlFabricEnabled then
        if nvlFabricCliqueEnabled then NvlState(r).clique.index else NvlState(r).domain.index
      else rankStates[r].nodeId
    }

    function LocalRank(rank: int): int
      requires ValidRank(rank) && FabricReady()
      reads this
    {
      var r := Resolve(rank);
      if nvlFabricEnabled then
        if nvlFabricCliqueEnabled then NvlState(r).clique.rank else NvlState(r).domain.rank
      else rankStates[r].localRank
    }

    function NLocalRanks(rank: int): int
      requires ValidRank(rank) && FabricReady()
      reads this
    {
      var r := Resolve(rank);
      if nvlFabricEnabled then
        if nvlFabricCliqueEnabled then NvlState(r).clique.count else NvlState(r).domain.count
      else rankStates[r].nLocalRanks
    }

    /** Two lookups that each throw when out of range. */
    static function At(table: seq<seq<nat>>, node: int, local: int): Option<nat> {
      if 0 <= node < |table| && 0 <= local < |table[node]| then Some(table[node][local]) else None
    }

    static function Pick(ranks: seq<nat>, local: int): Option<nat> { if 0 <= local < |ranks| then Some(ranks[local]) else None }

    /** localRankToRank; node -1 is this object's own node */
    function LocalRankToRank(localRank: int, nodeId: int): Option<nat>
      requires ValidRank(-1)
      reads this
    {
      if nvlFabricEnabled then
        if nvlFabricCliqueEnabled then
          if nodeId == -1 then Pick(myNvlFabricRankState.clique.ranks, localRank) else At(cliqueRanks, nodeId, localRank)
        else if nodeId == -1 then Pick(myNvlFabricRankState.domain.ranks, localRank)
        else At(nvlDomainRanks, nodeId, localRank)
      else if nodeId == -1 then Pick(rankStates[rank_].localRankToRanks, localRank)
      else At(nodeRanks, nodeId, localRank)
    }

    predicate IsSameNode(a: int, b: int)
      requires ValidRank(a) && ValidRank(b) && FabricReady()
      reads this
    {
      Node(b) == Node(a)
    }

    // -------------------------------------------------------------- what the getters say

    ghost predicate OnFabric(r: nat) reads this { r < |nvlFabricTopos| && nvlFabricTopos[r].supportNvlFabric }

    /**
     * With the fabric tables set, every rank on the fabric is found again from its node and local rank, the
     * same through the shortcut for this object's own node, and its node has as many ranks as it says.
     */
    lemma FabricRoundTrip(r: nat)
      requires NvlTables() && nvlFabricEnabled && |rankStates| == nRanks_ && r < nRanks_ && OnFabric(r)
      ensures LocalRankToRank(LocalRank(r), Node(r)) == Some(r)
      ensures Node(r) == Node(-1) && OnFabric(rank_) ==> LocalRankToRank(LocalRank(r), -1) == Some(r)
      ensures 0 <= LocalRank(r) < NLocalRanks(r)
    {
      if nvlFabricCliqueEnabled {
        TablesSay(Cliques(), r);
        TablesSay(Cliques(), rank_);
        PlacesInvert(GroupsFor(Cliques()), Cliques(), r, r);
      } else {
        TablesSay(Domains(), r);
        TablesSay(Domains(), rank_);
        PlacesInvert(GroupsFor(Domains()), Domains(), r, r);
      }
    }

    /** Two ranks on the fabric share a node exactly when they share the cluster, or the clique when cliques are on. */
    lemma FabricSameNode(r: nat, s: nat)
      requires NvlTables() && nvlFabricEnabled && |rankStates| == nRanks_ && r < nRanks_ && s < nRanks_ && OnFabric(r) && OnFabric(s)
      ensures IsSameNode(r, s) <==>
        if nvlFabricCliqueEnabled then nvlFabricTopos[r].cliqueId == nvlFabricTopos[s].cliqueId
        else nvlFabricTopos[r].clusterId == nvlFabricTopos[s].clusterId
    {
      if nvlFabricCliqueEnabled {
        TablesSay(Cliques(), r);
        TablesSay(Cliques(), s);
        PlacesInvert(GroupsFor(Cliques()), Cliques(), r, s);
      } else {
        TablesSay(Domains(), r);
        TablesSay(Domains(), s);
        PlacesInvert(GroupsFor(Domains()), Domains(), r, s);
      }
    }

    /** A rank's node has as many ranks as there are ranks on the fabric with its cluster, or its clique. */
    lemma FabricCounts(r: nat)
      requires NvlTables() && nvlFabricEnabled && |rankStates| == nRanks_ && r < nRanks_ && nvlFabricTopos[r].supportNvlFabric
      ensures nvlFabricCliqueEnabled ==>
        NLocalRanks(r) == |set s: nat | s < nRanks_ && nvlFabricTopos[s].supportNvlFabric && nvlFabricTopos[s].cliqueId == nvlFabricTopos[r].cliqueId|
      ensures !nvlFabricCliqueEnabled ==>
        NLocalRanks(r) == |set s: nat | s < nRanks_ && nvlFabricTopos[s].supportNvlFabric && nvlFabricTopos[s].clusterId == nvlFabricTopos[r].clusterId|
    {
      if nvlFabricCliqueEnabled {
        GroupCounted(Cliques(), r);
        assert Having(Cliques(), Cliques()[r], nRanks_)
            == (set s: nat | s < nRanks_ && nvlFabricTopos[s].supportNvlFabric && nvlFabricTopos[s].cliqueId == nvlFabricTopos[r].cliqueId);
      } else {
        GroupCounted(Domains(), r);
        assert Having(Domains(), Domains()[r], nRanks_)
            == (set s: nat | s < nRanks_ && nvlFabricTopos[s].supportNvlFabric && nvlFabricTopos[s].clusterId == nvlFabricTopos[r].clusterId);
      }
    }

    static lemma GroupCounted<K(!new)>(keys: seq<Option<K>>, r: nat)
      requires r < |keys| && keys[r].Some?
      ensures MembershipFor(keys, r).count == |Having(keys, keys[r], |keys|)|
    {
      TablesSay(keys, r);
      assert KeyOk(GroupsFor(keys), keys, |keys|, keys[r].value) && keys[r] == Some(keys[r].value);
      MembersCounted(keys, keys[r], |keys|);
    }

    /** A rank that is not on the fabric has no node there. */
    lemma FabricOff(r: nat)
      requires NvlTables() && nvlFabricEnabled && |rankStates| == nRanks_ && r < nRanks_ && !nvlFabricTopos[r].supportNvlFabric
      ensures Node(r) == -1 && LocalRank(r) == -1
    {
      TablesSay(Cliques(), r);
      TablesSay(Domains(), r);
    }

    /** Node numbers and local ranks are dense: every place in the tables is the place of a rank on the fabric. */
    lemma FabricDense(node: nat, local: nat)
      requires NvlTables() && nvlFabricEnabled && |rankStates| == nRanks_
      requires LocalRankToRank(local, node).Some?
      ensures var r := LocalRankToRank(local, node).value;
              r < nRanks_ && OnFabric(r) && Node(r) == node && LocalRank(r) == local
    {
      TablesSay(Cliques(), rank_);
      TablesSay(Domains(), rank_);
      if nvlFabricCliqueEnabled {
        PlacesDense(GroupsFor(Cliques()), Cliques(), node, local);
        TablesSay(Cliques(), cliqueRanks[node][local]);
      } else {
        PlacesDense(GroupsFor(Domains()), Domains(), node, local);
        TablesSay(Domains(), nvlDomainRanks[node][local]);
      }
    }

    /**
     * Without the fabric, the host tables find a rank again if and only if it has as many earlier ranks on its
     * host as there are ranks since a host was last new.
     */
    lemma HostRoundTripIff(hosts: seq<Host>, r: nat)
      requires HostTablesFor(hosts) && !nvlFabricEnabled && r < |hosts| && rank_ < |hosts|
      ensures LocalRankToRank(LocalRank(r), Node(r)) == Some(r) <==> Hosts.LocalId(hosts, r) == r - Hosts.LastNew(hosts, r)
    {
      Hosts.HostRoundTripIff(hosts, r);
      HostLookup(hosts, r);
    }

    lemma HostLookup(hosts: seq<Host>, r: nat)
      requires HostTablesFor(hosts) && !nvlFabricEnabled && r < |hosts| && rank_ < |hosts|
      ensures LocalRankToRank(LocalRank(r), Node(r)) == Some(r) <==> Hosts.RoundTrips(hosts, r)
    {
      NodeInRange(hosts, r);
    }

    /** So they find every rank when every host's ranks are consecutive. */
    lemma HostRoundTrip(hosts: seq<Host>, r: nat)
      requires HostTablesFor(hosts) && !nvlFabricEnabled && r < |hosts| && rank_ < |hosts| && Hosts.Consecutive(hosts)
      ensures LocalRankToRank(LocalRank(r), Node(r)) == Some(r)
    {
      Hosts.HostRoundTrip(hosts, r);
      HostLookup(hosts, r);
    }

    /**
     * Without the fabric, the shortcut for this object's own node finds a rank from its local rank if and only
     * if the rank is on the host of this object.
     */
    lemma HostOwnNodeIff(hosts: seq<Host>, r: nat)
      requires HostTablesFor(hosts) && !nvlFabricEnabled && r < |hosts| && rank_ < |hosts|
      ensures LocalRankToRank(LocalRank(r), -1) == Some(r) <==> hosts[r] == hosts[rank_]
    {
      MemberAt(hosts, r, |hosts|);
      MembersAre(hosts, hosts[rank_], |hosts|, r);
    }

    /** A rank has as many local ranks as its host has ranks. */
    lemma HostCounts(hosts: seq<Host>, r: nat)
      requires HostTablesFor(hosts) && !nvlFabricEnabled && r < |hosts| && rank_ < |hosts|
      ensures NLocalRanks(r) == |set s: nat | s < |hosts| && hosts[s] == hosts[r]|
    {
      MembersCounted(hosts, hosts[r], |hosts|);
      assert Having(hosts, hosts[r], |hosts|) == set s: nat | s < |hosts| && hosts[s] == hosts[r];
    }

    /**
     * What this means for the names that the ranks were given: host names as they are name nodes if and only if
     * the ranks of every name are consecutive.
     */
    lemma NameSameNodeIff(names: seq<string>)
      requires HostTablesFor(HostsOf(AsIs, names)) && !nvlFabricEnabled && rank_ < |names|
      ensures (forall r: nat, s: nat | r < |names| && s < |names| :: IsSameNode(r, s) <==> names[r] == names[s])
        <==> forall i: nat, j: nat, k: nat | i < j < k < |names| && names[i] == names[k] :: names[j] == names[i]
    {
      HostSameNodeIff(HostsOf(AsIs, names));
      AsIsConsecutive(names);
      NamesAreHosts(names);
    }

    lemma NamesAreHosts(names: seq<string>)
      requires HostTablesFor(HostsOf(AsIs, names)) && !nvlFabricEnabled && rank_ < |names|
      ensures (forall r: nat, s: nat | r < |names| && s < |names| :: IsSameNode(r, s) <==> names[r] == names[s])
        <==> SameNodeIsSameHost(HostsOf(AsIs, names))
    {
      var hosts := HostsOf(AsIs, names);
      forall r: nat, s: nat | r < |names| && s < |names|
        ensures (IsSameNode(r, s) <==> names[r] == names[s]) <==> (IsSameNode(r, s) <==> hosts[r] == hosts[s])
      {
        SameHostIs(AsIs, names, r, s);
      }
    }

    static lemma AsIsConsecutive(names: seq<string>)
      ensures Hosts.Consecutive(HostsOf(AsIs, names))
        <==> forall i: nat, j: nat, k: nat | i < j < k < |names| && names[i] == names[k] :: names[j] == names[i]
    {
      var hosts := HostsOf(AsIs, names);
      assert forall r | 0 <= r < |names| :: hosts[r] == Named(names[r]);
    }

    /** The debug modes always have one rank, or n ranks, to a node. */
    lemma NolocalSameNode(names: seq<string>, r: nat, s: nat)
      requires HostTablesFor(HostsOf(Nolocal, names)) && !nvlFabricEnabled && rank_ < |names| && r < |names| && s < |names|
      ensures IsSameNode(r, s) <==> r == s
    {
      HostSameNodeIff(HostsOf(Nolocal, names));
      SameHostIs(Nolocal, names, r, s);
    }

    lemma VnodeSameNode(names: seq<string>, n: nat, r: nat, s: nat)
      requires n >= 1 && HostTablesFor(HostsOf(Vnode(n), names)) && !nvlFabricEnabled && rank_ < |names| && r < |names| && s < |names|
      ensures IsSameNode(r, s) <==> r / n == s / n
    {
      HostSameNodeIff(HostsOf(Vnode(n), names));
      VnodesConsecutive(names, n);
      SameHostIs(Vnode(n), names, r, s);
    }

    /** Two ranks are on one host by name as it is, never, or in blocks of n ranks. */
    static lemma SameHostIs(mode: HostMode, names: seq<string>, r: nat, s: nat)
      requires ValidMode(mode) && r < |names| && s < |names|
      ensures HostsOf(mode, names)[r] == HostsOf(mode, names)[s] <==>
        match mode case AsIs => names[r] == names[s] case Nolocal => r == s case Vnode(n) => r / n == s / n
    {
    }

    static lemma VnodesConsecutive(names: seq<string>, n: nat)
      requires n >= 1
      ensures Hosts.Consecutive(HostsOf(Vnode(n), names))
    {
      forall i: nat, j: nat, k: nat | i < j < k < |names| && i / n == k / n ensures j / n == i / n {
        DivMonotone(i, j, n);
        DivMonotone(j, k, n);
      }
    }

    ghost predicate SameNodeIsSameHost(hosts: seq<Host>)
      requires HostTablesFor(hosts) && !nvlFabricEnabled && rank_ < |hosts|
      reads this
    {
      forall r: nat, s: nat | r < |hosts| && s < |hosts| :: IsSameNode(r, s) <==> hosts[r] == hosts[s]
    }

    /** Without the fabric, two ranks share a node exactly when they share a host if and only if hosts are consecutive. */
    lemma HostSameNodeIff(hosts: seq<Host>)
      requires HostTablesFor(hosts) && !nvlFabricEnabled && rank_ < |hosts|
      ensures SameNodeIsSameHost(hosts) <==> Hosts.Consecutive(hosts)
    {
      Hosts.NodesAreHostsIffConsecutive(hosts);
      if Hosts.Consecutive(hosts) {
        forall r: nat, s: nat | r < |hosts| && s < |hosts| ensures IsSameNode(r, s) <==> hosts[r] == hosts[s] {
          SameNodeIsSameId(hosts, r, s);
        }
      }
      if SameNodeIsSameHost(hosts) {
        forall r: nat, s: nat | r < |hosts| && s < |hosts|
          ensures Hosts.NodeId(hosts, r) == Hosts.NodeId(hosts, s) <==> hosts[r] == hosts[s]
        {
          SameNodeIsSameId(hosts, r, s);
        }
      }
    }

    lemma SameNodeIsSameId(hosts: seq<Host>, r: nat, s: nat)
      requires HostTablesFor(hosts) && !nvlFabricEnabled && rank_ < |hosts| && r < |hosts| && s < |hosts|
      ensures IsSameNode(r, s) <==> Hosts.NodeId(hosts, r) == Hosts.NodeId(hosts, s)
    {
    }

    /** With uniform virtual nodes, the getters and the device agree on every rank if and only if the node size is a power of two. */
    lemma VnodeDeviceIff(n: nat)
      requires VnodeTables(n) && !nvlFabricEnabled && rank_ < nRanks_ && n <= nRanks_
      ensures (forall r: nat | r < nRanks_ :: Device.DevLocalRank(r, n) == LocalRank(r)) <==> Device.PowerOfTwo(n)
      ensures forall r: nat | r < nRanks_ :: Device.DevNode(r, n) == Node(r)
      ensures forall r: nat | r < nRanks_ :: LocalRankToRank(LocalRank(r), Node(r)) == Some(r) && Device.DevRank(LocalRank(r), Node(r), n) == r
      ensures forall r: nat | r < nRanks_ && Node(r) == Node(rank_) :: LocalRankToRank(LocalRank(r), -1) == Some(r)
      ensures forall r: nat | r < nRanks_ :: NLocalRanks(r) == n
    {
      Device.DeviceAgreesIffPowerOfTwo(nRanks_, n);
      forall r: nat | r < nRanks_
        ensures LocalRank(r) == r % n && Node(r) == Device.DevNode(r, n) && NLocalRanks(r) == n
        ensures LocalRankToRank(LocalRank(r), Node(r)) == Some(r) && Device.DevRank(LocalRank(r), Node(r), n) == r
        ensures Node(r) == Node(rank_) ==> LocalRankToRank(LocalRank(r), -1) == Some(r)
      {
        VnodeRoundTrip(n, r);
        VnodeOwnNode(n, r);
      }
    }

    lemma VnodeRoundTrip(n: nat, r: nat)
      requires VnodeTables(n) && !nvlFabricEnabled && rank_ < nRanks_ && n <= nRanks_ && r < nRanks_
      ensures LocalRankToRank(LocalRank(r), Node(r)) == Some(r) && Device.DevRank(LocalRank(r), Node(r), n) == r
    {
      Device.VNodeRoundTrip(nRanks_, n, r);
      NodeBelow(r, n);
    }

    lemma VnodeOwnNode(n: nat, r: nat)
      requires VnodeTables(n) && !nvlFabricEnabled && rank_ < nRanks_ && r < nRanks_
      ensures LocalRank(r) == r % n && Node(r) == Device.DevNode(r, n) && NLocalRanks(r) == n
      ensures Node(r) == Node(rank_) ==> LocalRankToRank(LocalRank(r), -1) == Some(r)
    {
      PlaceInNode(r, n);
    }

    static lemma PlaceInNode(r: nat, n: nat)
      requires n >= 1
      ensures 0 <= r / n && 0 <= r % n < n && VnodeRanks(r / n, n)[r % n] == r
    {
      assert r == r / n * n + r % n;
    }
  }
}
