/** Ranks grouped by a key, in rank order: what the topology tables hold. */
module Grouping {
  import opened Verbs

  /** The ranks below n whose key is `key`, ascending. */
  function Members<K(==)>(keys: seq<K>, key: K, n: nat): seq<nat>
    requires n <= |keys|
  {
    if n == 0 then [] else Members(keys, key, n - 1) + if keys[n - 1] == key then [n - 1] else []
  }

  /** A rank's place among the members of its group is the number of members before it. */
  lemma {:induction false} MemberAt<K>(keys: seq<K>, r: nat, n: nat)
    requires r < n <= |keys|
    ensures var before, all := Members(keys, keys[r], r), Members(keys, keys[r], n);
            |before| < |all| && all[|before|] == r && before <= all
    decreases n
  {
    if r < n - 1 { MemberAt(keys, r, n - 1); }
  }

  lemma {:induction false} MemberIs<K>(keys: seq<K>, key: K, n: nat, p: nat)
    requires n <= |keys| && p < |Members(keys, key, n)|
    ensures var r := Members(keys, key, n)[p];
            r < n && keys[r] == key && |Members(keys, key, r)| == p
    decreases n
  {
    if p < |Members(keys, key, n - 1)| { MemberIs(keys, key, n - 1, p); }
  }

  lemma {:induction false} MembersAre<K>(keys: seq<K>, key: K, n: nat, s: nat)
    requires n <= |keys|
    ensures s in Members(keys, key, n) <==> s < n && keys[s] == key
  {
    if n > 0 { MembersAre(keys, key, n - 1, s); }
  }

  ghost function Having<K>(keys: seq<K>, key: K, n: nat): set<nat>
    requires n <= |keys|
  {
    set s: nat | s < n && keys[s] == key
  }

  lemma {:induction false} MembersCounted<K>(keys: seq<K>, key: K, n: nat)
    requires n <= |keys|
    ensures |Members(keys, key, n)| == |Having(keys, key, n)|
  {
    if n == 0 {
      assert Having(keys, key, n) == {};
    } else {
      MembersCounted(keys, key, n - 1);
      assert Having(keys, key, n) == Having(keys, key, n - 1) + if keys[n - 1] == key then {n - 1} else {};
    }
  }

  /** Two keyings that agree on which earlier ranks go with r give r the same place. */
  lemma {:induction false} SamePlace<K, L>(keys: seq<K>, others: seq<L>, r: nat, n: nat)
    requires n <= r < |keys| == |others|
    requires forall s | 0 <= s < n :: keys[s] == keys[r] <==> others[s] == others[r]
    ensures Members(keys, keys[r], n) == Members(others, others[r], n)
  {
    if n > 0 { SamePlace(keys, others, r, n - 1); }
  }

  lemma {:induction false} MembersPrefix<K>(keys: seq<K>, more: seq<K>, key: K, n: nat)
    requires n <= |keys| <= |more| && keys == more[..|keys|]
    ensures Members(keys, key, n) == Members(more, key, n)
  {
    if n > 0 { MembersPrefix(keys, more, key, n - 1); }
  }

  // ---------------------------------------------------------------- groups numbered as they are met

  /** Which number a key got, and each numbered group's ranks. Ranks without a key are in no group. */
  datatype Groups<K> = Groups(index: map<K, nat>, ranks: seq<seq<nat>>)

  /** Rank r joins the group of its key, a new one if the key is new. */
  function Join<K(==)>(g: Groups<K>, key: K, r: nat): Groups<K>
    requires key in g.index ==> g.index[key] < |g.ranks|
  {
    if key in g.index then g.(ranks := g.ranks[g.index[key] := g.ranks[g.index[key]] + [r]])
    else Groups(g.index[key := |g.ranks|], g.ranks + [[r]])
  }

  /** The groups of the first n ranks. */
  ghost predicate GroupsOf<K(!new)>(g: Groups<K>, keys: seq<Option<K>>, n: nat)
    requires n <= |keys|
  {
    && (forall k | k in g.index :: KeyOk(g, keys, n, k))
    && (forall k, l | k in g.index && l in g.index && g.index[k] == g.index[l] :: k == l)
    && (forall i | 0 <= i < |g.ranks| :: Numbered(g, i))
    && (forall r | 0 <= r < n && keys[r].Some? :: keys[r].value in g.index)
  }

  ghost predicate KeyOk<K>(g: Groups<K>, keys: seq<Option<K>>, n: nat, k: K)
    requires n <= |keys| && k in g.index
  {
    g.index[k] < |g.ranks| && g.ranks[g.index[k]] == Members(keys, Some(k), n) && g.ranks[g.index[k]] != []
  }

  ghost predicate Numbered<K(!new)>(g: Groups<K>, i: nat) { exists k :: k in g.index && g.index[k] == i }

  lemma NoMembers<K>(keys: seq<K>, key: K, n: nat)
    requires n <= |keys| && forall r | 0 <= r < n :: keys[r] != key
    ensures Members(keys, key, n) == []
  {
    if n > 0 { NoMembers(keys, key, n - 1); }
  }

  lemma SkipKeepsGroups<K(!new)>(g: Groups<K>, keys: seq<Option<K>>, n: nat)
    requires n < |keys| && GroupsOf(g, keys, n) && keys[n].None?
    ensures GroupsOf(g, keys, n + 1)
  {
    forall k | k in g.index ensures KeyOk(g, keys, n + 1, k) { assert KeyOk(g, keys, n, k); }
  }

  /** Joining keeps the groups what they are, and puts the rank behind the earlier members. */
  lemma JoinKeepsGroups<K(!new)>(g: Groups<K>, keys: seq<Option<K>>, n: nat)
    requires n < |keys| && GroupsOf(g, keys, n) && keys[n].Some?
    ensures keys[n].value in g.index ==> g.index[keys[n].value] < |g.ranks|
    ensures var key, g' := keys[n].value, Join(g, keys[n].value, n);
            && GroupsOf(g', keys, n + 1)
            && (key in g.index ==> |g.ranks[g.index[key]]| == |Members(keys, keys[n], n)|)
            && (key !in g.index ==> Members(keys, keys[n], n) == [])
  {
    var key, g' := keys[n].value, Join(g, keys[n].value, n);
    assert key in g.index ==> KeyOk(g, keys, n, key);
    if key !in g.index { NoMembers(keys, keys[n], n); }
    forall k | k in g'.index
      ensures KeyOk(g', keys, n + 1, k)
    {
      assert k in g.index ==> KeyOk(g, keys, n, k);
    }
    assert forall k | k in g.index :: KeyOk(g, keys, n, k) ==> g.index[k] < |g.ranks|;
    JoinNumbers(g, key, n);
  }

  lemma JoinNumbers<K(!new)>(g: Groups<K>, key: K, n: nat)
    requires forall k | k in g.index :: g.index[k] < |g.ranks|
    requires forall k, l | k in g.index && l in g.index && g.index[k] == g.index[l] :: k == l
    requires forall i | 0 <= i < |g.ranks| :: Numbered(g, i)
    ensures var g' := Join(g, key, n);
            && (forall k, l | k in g'.index && l in g'.index && g'.index[k] == g'.index[l] :: k == l)
            && (forall i | 0 <= i < |g'.ranks| :: Numbered(g', i))
  {
    var g' := Join(g, key, n);
    forall i | 0 <= i < |g'.ranks|
      ensures Numbered(g', i)
    {
      if i < |g.ranks| {
        assert Numbered(g, i);
        var k :| k in g.index && g.index[k] == i;
        assert k in g'.index && g'.index[k] == i;
      } else {
        assert key in g'.index && g'.index[key] == i;
      }
    }
  }

  /** Where a rank with a key ends up: its group's number, and its place there. */
  ghost function PlaceOf<K>(g: Groups<K>, keys: seq<Option<K>>, r: nat): (int, int)
    requires r < |keys| && (keys[r].Some? ==> keys[r].value in g.index)
  {
    if keys[r].Some? then (g.index[keys[r].value] as int, |Members(keys, keys[r], r)| as int) else (-1, -1)
  }

  /**
   * The tables invert the places: looking up a rank's place gives the rank; every place in the tables is some
   * rank's; and two ranks share a group exactly when they share the key.
   */
  lemma PlacesInvert<K(!new)>(g: Groups<K>, keys: seq<Option<K>>, r: nat, s: nat)
    requires GroupsOf(g, keys, |keys|) && r < |keys| && keys[r].Some? && s < |keys| && keys[s].Some?
    ensures var (node, local) := PlaceOf(g, keys, r);
            0 <= node < |g.ranks| && 0 <= local < |g.ranks[node]| && g.ranks[node][local] == r
    ensures PlaceOf(g, keys, r).0 == PlaceOf(g, keys, s).0 <==> keys[r] == keys[s]
  {
    assert KeyOk(g, keys, |keys|, keys[r].value) && KeyOk(g, keys, |keys|, keys[s].value);
    MemberAt(keys, r, |keys|);
  }

  lemma PlacesDense<K(!new)>(g: Groups<K>, keys: seq<Option<K>>, node: nat, local: nat)
    requires GroupsOf(g, keys, |keys|) && node < |g.ranks| && local < |g.ranks[node]|
    ensures var r := g.ranks[node][local];
            r < |keys| && keys[r].Some? && PlaceOf(g, keys, r) == (node as int, local as int)
  {
    assert Numbered(g, node);
    var k :| k in g.index && g.index[k] == node;
    assert KeyOk(g, keys, |keys|, k);
    MemberIs(keys, Some(k), |keys|, local);
  }

  // ---------------------------------------------------------------- the two passes that fill the tables

  /** A rank's number and place in one kind of group, with the group's size and ranks; -1 and empty without a group. */
  datatype Membership = Membership(index: int, rank: int, count: int, ranks: seq<nat>)

  const NO_MEMBERSHIP := Membership(-1, -1, -1, [])

  /** The first pass for one rank. */
  function JoinRank<K(==)>(g: Groups<K>, key: Option<K>, r: nat): (Groups<K>, Membership) {
    if key.None? then (g, NO_MEMBERSHIP)
    else
      var g1 := if key.value in g.index then g else Groups(g.index[key.value := |g.ranks|], g.ranks + [[]]);
      var index := g1.index[key.value];
      if index < |g1.ranks| then
        (g1.(ranks := g1.ranks[index := g1.ranks[index] + [r]]), Membership(index, |g1.ranks[index]|, -1, []))
      else (g1, NO_MEMBERSHIP)
  }

  function FirstPass<K(==)>(g: Groups<K>, keys: seq<Option<K>>, n: nat): (Groups<K>, seq<Membership>)
    requires n <= |keys|
  {
    if n == 0 then (g, [])
    else
      var (before, ms) := FirstPass(g, keys, n - 1);
      var (after, m) := JoinRank(before, keys[n - 1], n - 1);
      (after, ms + [m])
  }

  /** The second pass for one rank: the size and the ranks of its group. */
  function Filled<K>(g: Groups<K>, m: Membership): Membership {
    if 0 <= m.index < |g.ranks| then m.(count := |g.ranks[m.index]|, ranks := g.ranks[m.index]) else m
  }

  ghost function NewGroups<K>(): Groups<K> { Groups(map[], []) }

  ghost function GroupsFor<K>(keys: seq<Option<K>>): Groups<K> { FirstPass(NewGroups(), keys, |keys|).0 }

  ghost function MembershipFor<K>(keys: seq<Option<K>>, r: nat): Membership
    requires r < |keys|
  {
    PassCounts(NewGroups<K>(), keys, |keys|);
    Filled(GroupsFor(keys), FirstPass(NewGroups(), keys, |keys|).1[r])
  }

  lemma {:induction false} PassCounts<K>(g: Groups<K>, keys: seq<Option<K>>, n: nat)
    requires n <= |keys|
    ensures |FirstPass(g, keys, n).1| == n
  {
    if n > 0 { PassCounts(g, keys, n - 1); }
  }

  /** The pass numbers as many new groups as it meets new keys, whatever was in the table before. */
  lemma {:induction false} NewGroupsCounted<K>(g: Groups<K>, keys: seq<Option<K>>, n: nat)
    requires n <= |keys|
    ensures var g' := FirstPass(g, keys, n).0;
            |g'.ranks| - |g'.index| == |g.ranks| - |g.index|
  {
    if n > 0 { NewGroupsCounted(g, keys, n - 1); }
  }

  lemma JoinRankIs<K(!new)>(g: Groups<K>, keys: seq<Option<K>>, r: nat)
    requires r < |keys| && GroupsOf(g, keys, r)
    ensures var (g', m) := JoinRank(g, keys[r], r);
            GroupsOf(g', keys, r + 1) && (m.index, m.rank) == PlaceOf(g', keys, r)
    ensures forall k | k in g.index :: k in JoinRank(g, keys[r], r).0.index && JoinRank(g, keys[r], r).0.index[k] == g.index[k]
  {
    if keys[r].None? {
      SkipKeepsGroups(g, keys, r);
    } else {
      JoinKeepsGroups(g, keys, r);
      var key := keys[r].value;
      if key !in g.index {
        assert [] + [r] == [r];
        assert (g.ranks + [[]])[|g.ranks| := [r]] == g.ranks + [[r]];
      }
    }
  }

  ghost predicate PlacedAt<K>(g: Groups<K>, keys: seq<Option<K>>, m: Membership, r: nat)
    requires r < |keys|
  {
    (keys[r].Some? ==> keys[r].value in g.index) && (m.index, m.rank) == PlaceOf(g, keys, r)
  }

  ghost predicate AllPlaced<K>(g: Groups<K>, keys: seq<Option<K>>, ms: seq<Membership>)
    requires |ms| <= |keys|
  {
    forall r | 0 <= r < |ms| :: PlacedAt(g, keys, ms[r], r)
  }

  lemma PlacesKept<K(!new)>(g: Groups<K>, g': Groups<K>, keys: seq<Option<K>>, ms: seq<Membership>, m: Membership)
    requires |ms| < |keys| && AllPlaced(g, keys, ms) && PlacedAt(g', keys, m, |ms|)
    requires forall k | k in g.index :: k in g'.index && g'.index[k] == g.index[k]
    ensures AllPlaced(g', keys, ms + [m])
  {
    forall r | 0 <= r <= |ms| ensures PlacedAt(g', keys, (ms + [m])[r], r) {
      if r < |ms| { assert PlacedAt(g, keys, ms[r], r); }
    }
  }

  /** After the pass, every rank has the place its key gives it. */
  lemma {:induction false} FirstPassPlaces<K(!new)>(keys: seq<Option<K>>, n: nat)
    requires n <= |keys|
    ensures var (g, ms) := FirstPass(NewGroups(), keys, n);
            GroupsOf(g, keys, n) && |ms| == n && AllPlaced(g, keys, ms)
  {
    if n > 0 {
      FirstPassPlaces(keys, n - 1);
      var (g, ms) := FirstPass(NewGroups(), keys, n - 1);
      JoinRankIs(g, keys, n - 1);
      var (g', m) := JoinRank(g, keys[n - 1], n - 1);
      PlacesKept(g, g', keys, ms, m);
    }
  }

  /** What the tables say of rank r: its place, and the size and ranks of its group. */
  lemma TablesSay<K(!new)>(keys: seq<Option<K>>, r: nat)
    requires r < |keys|
    ensures GroupsOf(GroupsFor(keys), keys, |keys|)
    ensures var g, m := GroupsFor(keys), MembershipFor(keys, r);
            && (m.index, m.rank) == PlaceOf(g, keys, r)
            && (keys[r].Some? ==> 0 <= m.index < |g.ranks| && m.ranks == g.ranks[m.index] && m.count == |m.ranks|)
  {
    FirstPassPlaces(keys, |keys|);
    assert PlacedAt(GroupsFor(keys), keys, FirstPass(NewGroups(), keys, |keys|).1[r], r);
    if keys[r].Some? { PlacesInvert(GroupsFor(keys), keys, r, r); }
  }
}
