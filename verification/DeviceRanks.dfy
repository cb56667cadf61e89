/** The device's closed forms for node and local rank, against the tables of uniform virtual nodes. */
module DeviceRanks {
  import opened Arithmetic
  import opened Grouping

  /** `a & b` on non-negative numbers. */
  function And(a: nat, b: nat): nat {
    if a == 0 || b == 0 then 0 else 2 * And(a / 2, b / 2) + (a % 2) * (b % 2)
  }

  predicate PowerOfTwo(n: nat) { n == 1 || (n > 1 && n % 2 == 0 && PowerOfTwo(n / 2)) }

  /** CommStateXDev::localRank */
  function DevLocalRank(rank: nat, localRanks: nat): nat
    requires localRanks >= 1
  {
    And(rank, localRanks - 1)
  }

  /** CommStateXDev::node */
  function DevNode(rank: nat, localRanks: nat): nat
    requires localRanks >= 1
  {
    rank / localRanks
  }

  /** CommStateXDev::localRankToRank */
  function DevRank(localRank: nat, node: nat, localRanks: nat): nat { localRanks * node + localRank }

  lemma AndHalves(r: nat, m: nat)
    requires m >= 1
    ensures And(r, 2 * m - 1) == 2 * And(r / 2, m - 1) + r % 2
  {
    assert (2 * m - 1) / 2 == m - 1 && (2 * m - 1) % 2 == 1;
  }

  lemma QuotientOf(r: nat, n: nat, q: nat, x: nat)
    requires n >= 1 && r == q * n + x && x < n
    ensures r / n == q && r % n == x
  {
    var p := r / n;
    assert p * n + r % n == q * n + x;
    Differ(q, p, n);
    Differ(p, q, n);
  }

  lemma Differ(a: nat, b: nat, n: nat)
    ensures a > b ==> a * n >= b * n + n
  {
    if a > b {
      MulMonotone(b + 1, a, n);
      assert (b + 1) * n == b * n + n;
    }
  }

  lemma ModHalves(r: nat, m: nat)
    requires m >= 1
    ensures r % (2 * m) == 2 * (r / 2 % m) + r % 2
  {
    var half := r / 2;
    var q, x := half / m, half % m;
    assert r == 2 * (q * m + x) + r % 2;
    assert q * (2 * m) == 2 * (q * m);
    QuotientOf(r, 2 * m, q, 2 * x + r % 2);
  }

  lemma {:induction false} MaskIsModulo(r: nat, n: nat)
    requires PowerOfTwo(n)
    ensures And(r, n - 1) == r % n
    decreases n
  {
    if n > 1 {
      var m := n / 2;
      MaskIsModulo(r / 2, m);
      AndHalves(r, m);
      ModHalves(r, m);
    }
  }

  /** Masking leaves every rank below n alone only if n is a power of two. */
  lemma {:induction false} IdentityMask(n: nat)
    requires n >= 1 && forall r: nat | r < n :: DevLocalRank(r, n) == r
    ensures PowerOfTwo(n)
    decreases n
  {
    if n > 1 {
      assert DevLocalRank(1, n) == 1;
      assert n % 2 == 0;
      var m := n / 2;
      forall s: nat | s < m ensures DevLocalRank(s, m) == s {
        AndHalves(2 * s, m);
        assert DevLocalRank(2 * s, n) == 2 * s;
      }
      IdentityMask(m);
    }
  }

  /**
   * The device's local rank agrees with the table's for all ranks of uniform nodes if and only if the node
   * size is a power of two.
   */
  lemma DeviceAgreesIffPowerOfTwo(nRanks: nat, n: nat)
    requires 1 <= n <= nRanks
    ensures (forall r: nat | r < nRanks :: DevLocalRank(r, n) == r % n) <==> PowerOfTwo(n)
  {
    if PowerOfTwo(n) {
      forall r: nat | r < nRanks ensures DevLocalRank(r, n) == r % n { MaskIsModulo(r, n); }
    }
    if (forall r: nat | r < nRanks :: DevLocalRank(r, n) == r % n) {
      forall r: nat | r < n ensures DevLocalRank(r, n) == r {
        assert DevLocalRank(r, n) == r % n;
        QuotientOf(r, n, 0, r);
      }
      IdentityMask(n);
    }
  }

  /** For one: with three ranks to a node the device takes rank 1 for local rank 0. */
  lemma ThreeToANode()
    ensures DevLocalRank(1, 3) == 0 && 1 % 3 == 1
  {
    assert And(0, 1) == 0;
  }

  // ---------------------------------------------------------------- the tables of uniform nodes

  ghost function VNodes(nRanks: nat, n: nat): (ids: seq<int>)
    requires n >= 1
    ensures |ids| == nRanks
  {
    seq(nRanks, r requires 0 <= r < nRanks => r / n)
  }

  lemma {:induction false} PlaceInVNode(nRanks: nat, n: nat, r: nat)
    requires n >= 1 && r < nRanks
    ensures |Members(VNodes(nRanks, n), r / n, r)| == r % n
  {
    var ids := VNodes(nRanks, n);
    if r % n == 0 {
      forall s | 0 <= s < r ensures ids[s] != r / n { EarlierNode(s, r, n); }
      NoMembers(ids, r / n, r);
    } else {
      var q, x := r / n, r % n;
      QuotientOf(r - 1, n, q, x - 1);
      PlaceInVNode(nRanks, n, r - 1);
      assert ids[r - 1] == r / n;
    }
  }

  lemma EarlierNode(s: nat, r: nat, n: nat)
    requires n >= 1 && s < r && r % n == 0
    ensures s / n != r / n
  {
    assert r == r / n * n && s == s / n * n + s % n;
  }

  /** The node table of uniform nodes holds rank r where both the table's and the device's formulas look for it. */
  lemma VNodeRoundTrip(nRanks: nat, n: nat, r: nat)
    requires n >= 1 && r < nRanks
    ensures var node := Members(VNodes(nRanks, n), r / n, nRanks);
            r % n < |node| && node[r % n] == r
    ensures DevRank(r % n, DevNode(r, n), n) == r
  {
    PlaceInVNode(nRanks, n, r);
    MemberAt(VNodes(nRanks, n), r, nRanks);
    DevRoundTrip(r, n);
  }

  lemma DevRoundTrip(r: nat, n: nat)
    requires n >= 1
    ensures DevRank(r % n, DevNode(r, n), n) == r
  {
    var q := r / n;
    assert n * q == q * n && r == q * n + r % n;
  }
}
