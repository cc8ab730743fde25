/**
 The striped shard-map generator: replicas are dealt to the nodes in turn, one
 counter running on from each shard to the next.

 `counts[i]` is the number of replicas wanted for shard i + 1, whether fixed or drawn.
 */
module Stripe {
  import opened Options
  import opened ShardMap

  // ---- node names -----------------------------------------------------------------------

  const DIGITS := "0123456789"

  function Decimal(n: nat): (r: string)
    ensures |r| > 0
  {
    if n < 10 then [DIGITS[n]] else Decimal(n / 10) + [DIGITS[n % 10]]
  }

  function Name(i: nat): string {
    "n" + Decimal(i + 1)
  }

  lemma DecimalLast(n: nat)
    ensures Decimal(n)[|Decimal(n)| - 1] == DIGITS[n % 10]
    ensures Decimal(n)[..|Decimal(n)| - 1] == if n < 10 then [] else Decimal(n / 10)
  {}

  lemma DigitsDiffer(a: nat, b: nat)
    requires a < 10 && b < 10 && DIGITS[a] == DIGITS[b]
    ensures a == b
  {}

  lemma {:induction false} DecimalInjective(a: nat, b: nat)
    requires Decimal(a) == Decimal(b)
    ensures a == b
  {
    DecimalLast(a);
    DecimalLast(b);
    DigitsDiffer(a % 10, b % 10);
    if a >= 10 && b >= 10 { DecimalInjective(a / 10, b / 10); }
  }

  lemma NameInjective(a: nat, b: nat)
    ensures Name(a) == Name(b) <==> a == b
  {
    if Name(a) == Name(b) {
      assert Name(a)[1..] == Decimal(a + 1) && Name(b)[1..] == Decimal(b + 1);
      DecimalInjective(a + 1, b + 1);
    }
  }

  predicate IsDigit(c: char) {
    '0' <= c <= '9'
  }

  /** The number that a string of decimal digits denotes. */
  function Denoted(s: string): nat
    requires forall i :: 0 <= i < |s| ==> IsDigit(s[i])
  {
    if s == [] then 0 else Denoted(s[..|s| - 1]) * 10 + DigitOf(s[|s| - 1])
  }

  function DigitOf(c: char): nat
    requires IsDigit(c)
  {
    c as int - '0' as int
  }

  lemma DigitChar(d: nat)
    requires d < 10
    ensures IsDigit(DIGITS[d]) && DigitOf(DIGITS[d]) == d
  {}

  lemma {:induction false} DecimalDenotes(n: nat)
    ensures forall i :: 0 <= i < |Decimal(n)| ==> IsDigit(Decimal(n)[i])
    ensures Denoted(Decimal(n)) == n && (n > 0 ==> Decimal(n)[0] != '0')
  {
    DigitChar(n % 10);
    if n < 10 {
      assert Decimal(n)[..0] == [];
    } else {
      DecimalDenotes(n / 10);
      assert Decimal(n)[..|Decimal(n)| - 1] == Decimal(n / 10);
    }
  }

  /** A name is an 'n' and the node's number, counted from one, without leading zeros. */
  lemma NameSpelled(i: nat)
    ensures
      var digits := Name(i)[1..];
      && Name(i)[0] == 'n' && digits != [] && digits[0] != '0'
      && (forall j :: 0 <= j < |digits| ==> IsDigit(digits[j])) && Denoted(digits) == i + 1
  {
    DecimalDenotes(i + 1);
    assert Name(i)[1..] == Decimal(i + 1);
  }

  lemma FirstName(i: nat)
    requires i < 9
    ensures Name(i) == ["n1", "n2", "n3", "n4", "n5", "n6", "n7", "n8", "n9"][i]
  {
    assert Name(i) == ['n', DIGITS[i + 1]];
  }

  function Names(n: nat): (r: seq<string>)
    ensures |r| == n && forall i :: 0 <= i < n ==> r[i] == Name(i)
  {
    if n == 0 then [] else Names(n - 1) + [Name(n - 1)]
  }

  // ---- the generator --------------------------------------------------------------------

  /** Replicas dealt before shard i + 1. */
  function Dealt(counts: seq<nat>, i: nat): nat
    requires i <= |counts|
  {
    if i == 0 then 0 else Dealt(counts, i - 1) + counts[i - 1]
  }

  /** Dealt one node after the other, starting with the one whose turn it is at `from`. */
  ghost predicate Stripe(n: nat, from: nat, hosts: Hosts) {
    forall t :: 0 <= t < |hosts| ==> n > 0 && hosts[t] == Name((from + t) % n)
  }

  ghost predicate ShardStriped(n: nat, counts: seq<nat>, i: nat, hosts: Hosts)
    requires i < |counts|
  {
    |hosts| == counts[i] && Stripe(n, Dealt(counts, i), hosts)
  }

  /** Every shard from 1 to `i` hosted by its stripe, and no other. */
  ghost predicate StripedUpTo(n: nat, counts: seq<nat>, shards: map<Int64, Hosts>, i: nat)
    requires i <= |counts|
  {
    && (forall k: Int64 :: k in shards <==> 1 <= k <= i)
    && forall k: Int64 :: 1 <= k <= i ==> ShardStriped(n, counts, k - 1, shards[k])
  }

  lemma StripedNext(n: nat, counts: seq<nat>, shards: map<Int64, Hosts>, i: nat, hosts: Hosts)
    requires i < |counts| < 0x8000_0000_0000_0000
    requires StripedUpTo(n, counts, shards, i) && ShardStriped(n, counts, i, hosts)
    ensures StripedUpTo(n, counts, shards[i + 1 := hosts], i + 1)
  {}

  /** The generated map; None is the division by zero when replicas are wanted and there is no node. */
  method MakeShardMap(n: nat, counts: seq<nat>, address: string, basePort: int) returns (r: Option<State>)
    requires |counts| < 0x8000_0000_0000_0000
    ensures r.None? <==> n == 0 && exists i :: 0 <= i < |counts| && counts[i] > 0
    ensures r.Some? ==>
              && r.value.numShards == |counts|
              && (forall h :: h in r.value.nodes <==> h in Names(n))
              && (forall i :: 0 <= i < n ==> r.value.nodes[Name(i)] == NodeInfo(address, basePort + i))
              && StripedUpTo(n, counts, r.value.shards, |counts|)
  {
    var nodes := MakeNodes(n, address, basePort);
    var shards: map<Int64, Hosts> := map[];
    var counter := 0;
    for i := 0 to |counts|
      invariant counter == Dealt(counts, i)
      invariant StripedUpTo(n, counts, shards, i)
      invariant n == 0 ==> forall j :: 0 <= j < i ==> counts[j] == 0
    {
      var hosts;
      hosts, counter := DealStripe(Names(n), counter, counts[i]);
      if hosts.None? { return None; }
      StripedNext(n, counts, shards, i, hosts.value);
      shards := shards[i + 1 := hosts.value];
    }
    return Some(State(nodes, shards, |counts|));
  }

  /** The inner loop: one host a turn. */
  method DealStripe(names: seq<string>, counter: nat, count: nat) returns (r: Option<Hosts>, next: nat)
    requires names == Names(|names|)
    ensures r.None? <==> names == [] && count > 0
    ensures r.Some? ==> |r.value| == count && Stripe(|names|, counter, r.value) && next == counter + count
  {
    var hosts: Hosts := [];
    next := counter;
    for t := 0 to count
      invariant |hosts| == t && next == counter + t && Stripe(|names|, counter, hosts) && (names == [] ==> t == 0)
    {
      if names == [] { return None, next; }
      hosts := hosts + [names[next % |names|]];
      next := next + 1;
    }
    r := Some(hosts);
  }

  method MakeNodes(n: nat, address: string, basePort: int) returns (nodes: map<string, NodeInfo>)
    ensures forall h :: h in nodes <==> h in Names(n)
    ensures forall i :: 0 <= i < n ==> nodes[Name(i)] == NodeInfo(address, basePort + i)
  {
    nodes := map[];
    for i := 0 to n
      invariant forall h :: h in nodes <==> h in Names(i)
      invariant forall j :: 0 <= j < i ==> Name(j) in Names(i) && nodes[Name(j)] == NodeInfo(address, basePort + j)
    {
      forall j | 0 <= j < i ensures Name(j) != Name(i) { NameInjective(i, j); }
      nodes := nodes[Name(i) := NodeInfo(address, basePort + i)];
      assert Names(i + 1) == Names(i) + [Name(i)];
    }
  }

  // ---- validity -------------------------------------------------------------------------

  lemma DivModUnique(x: nat, n: nat, q: nat, r: nat)
    requires r < n && x == n * q + r
    ensures x / n == q && x % n == r
  {
    var d := q - x / n;
    assert n * d == x % n - r;
    if d > 0 { MulAtLeast(n, d); } else if d < 0 { MulAtLeast(n, -d); }
  }

  lemma ModDiffers(from: nat, a: nat, b: nat, n: nat)
    requires a < b < a + n
    ensures (from + a) % n != (from + b) % n
  {
    var x, y := from + a, from + b;
    if x % n == y % n {
      assert y - x == n * (y / n - x / n);
      if y / n - x / n >= 1 { MulAtLeast(n, y / n - x / n); } else { MulAtMostZero(n, y / n - x / n); }
    }
  }

  lemma MulAtLeast(n: nat, q: int)
    requires q >= 1
    ensures n * q >= n
  {}

  lemma MulAtMostZero(n: nat, q: int)
    requires q <= 0
    ensures n * q <= 0
  {}

  /** A shard's hosts are distinct exactly when it wants no more replicas than there are nodes. */
  lemma DistinctExact(n: nat, from: nat, hosts: Hosts)
    requires n > 0 && Stripe(n, from, hosts)
    ensures Distinct(hosts) <==> |hosts| <= n
  {
    if |hosts| <= n {
      forall i, j | 0 <= i < j < |hosts| ensures hosts[i] != hosts[j] {
        ModDiffers(from, i, j, n);
        NameInjective((from + i) % n, (from + j) % n);
      }
    } else {
      assert (from + n) % n == from % n by { ModSame(from, n); }
      assert hosts[0] == hosts[n];
    }
  }

  lemma ModSame(from: nat, n: nat)
    requires n > 0
    ensures (from + n) % n == from % n
  {
    var q := from / n;
    assert n * (q + 1) == n * q + n;
    DivModUnique(from + n, n, q + 1, from % n);
  }

  /** The generated map is valid exactly when no shard wants more replicas than there are nodes. */
  lemma StripedValid(n: nat, counts: seq<nat>, s: State)
    requires |counts| < 0x8000_0000_0000_0000
    requires s.numShards == |counts| && (forall h :: h in s.nodes <==> h in Names(n))
    requires StripedUpTo(n, counts, s.shards, |counts|)
    ensures ValidMap(s) <==> forall i :: 0 <= i < |counts| ==> counts[i] <= n
  {
    forall k: Int64 | 1 <= k <= |counts|
      ensures GoodHosts(s.nodes.Keys, s.shards[k]) <==> counts[k - 1] <= n
    {
      assert ShardStriped(n, counts, k - 1, s.shards[k]);
      GoodExact(n, Dealt(counts, k - 1), s.nodes.Keys, s.shards[k]);
    }
    RangeLimitsSize(s.shards, |counts|);
    forall i | 0 <= i < |counts| ensures GoodHosts(s.nodes.Keys, s.shards[i + 1]) <==> counts[i] <= n {}
  }

  lemma GoodExact(n: nat, from: nat, nodes: set<string>, hosts: Hosts)
    requires forall h :: h in nodes <==> h in Names(n)
    requires Stripe(n, from, hosts)
    ensures GoodHosts(nodes, hosts) <==> |hosts| <= n
  {
    forall h | h in hosts ensures h in nodes {
      var t :| 0 <= t < |hosts| && hosts[t] == h;
      assert Names(n)[(from + t) % n] == h;
    }
    assert |hosts| > 0 ==> hosts[0] in Names(n);
    if n > 0 { DistinctExact(n, from, hosts); }
  }

  // ---- balance --------------------------------------------------------------------------

  /** How often node j is listed for the shards up to i. */
  function Load(shards: map<Int64, Hosts>, i: nat, node: string): nat
    requires i < 0x8000_0000_0000_0000
  {
    if i == 0 then 0
    else Load(shards, i - 1, node) + (if i in shards then Occurrences(shards[i], node) else 0)
  }

  /** Of `total` replicas dealt in turn to n nodes, what node j gets. */
  function Share(total: nat, n: nat, j: nat): nat
    requires j < n
  {
    total / n + (if j < total % n then 1 else 0)
  }

  /** One more replica goes to the node whose turn it is. */
  lemma ShareStep(total: nat, n: nat, j: nat)
    requires j < n
    ensures Share(total + 1, n, j) == Share(total, n, j) + (if total % n == j then 1 else 0)
  {
    var q, r := total / n, total % n;
    if r + 1 < n {
      DivModUnique(total + 1, n, q, r + 1);
    } else {
      assert n * (q + 1) == n * q + n;
      DivModUnique(total + 1, n, q + 1, 0);
    }
  }

  lemma {:induction false} StripeShare(n: nat, from: nat, hosts: Hosts, j: nat)
    requires j < n && Stripe(n, from, hosts)
    ensures Share(from + |hosts|, n, j) == Share(from, n, j) + Occurrences(hosts, Name(j))
  {
    if hosts != [] {
      var last := |hosts| - 1;
      StripeShare(n, from, hosts[..last], j);
      ShareStep(from + last, n, j);
      NameInjective((from + last) % n, j);
    }
  }

  lemma DealtShare(n: nat, counts: seq<nat>, shards: map<Int64, Hosts>, k: Int64, j: nat)
    requires 1 <= k <= |counts| < 0x8000_0000_0000_0000 && j < n
    requires StripedUpTo(n, counts, shards, |counts|)
    ensures k in shards
    ensures Share(Dealt(counts, k), n, j) == Share(Dealt(counts, k - 1), n, j) + Occurrences(shards[k], Name(j))
  {
    assert ShardStriped(n, counts, k - 1, shards[k]);
    StripeShare(n, Dealt(counts, k - 1), shards[k], j);
  }

  /** A node's load depends only on the total dealt, whatever the mix of replica counts. */
  lemma {:induction false} LoadExact(n: nat, counts: seq<nat>, shards: map<Int64, Hosts>, i: nat, j: nat)
    requires i <= |counts| < 0x8000_0000_0000_0000 && j < n
    requires StripedUpTo(n, counts, shards, |counts|)
    ensures Load(shards, i, Name(j)) == Share(Dealt(counts, i), n, j)
  {
    if i == 0 {
      DivModUnique(0, n, 0, 0);
    } else {
      LoadExact(n, counts, shards, i - 1, j);
      DealtShare(n, counts, shards, i, j);
    }
  }

  /** The loads of any two nodes differ by at most one. */
  lemma Balanced(n: nat, counts: seq<nat>, s: State, a: nat, b: nat)
    requires |counts| < 0x8000_0000_0000_0000 && a < n && b < n
    requires StripedUpTo(n, counts, s.shards, |counts|)
    ensures -1 <= Load(s.shards, |counts|, Name(a)) - Load(s.shards, |counts|, Name(b)) <= 1
  {
    LoadExact(n, counts, s.shards, |counts|, a);
    LoadExact(n, counts, s.shards, |counts|, b);
  }

  /** The load is the length of the list that the program reads off the map for a node. */
  lemma {:induction false} LoadIsListing(shards: map<Int64, Hosts>, i: nat, node: string, listed: multiset<Int64>)
    requires i < 0x8000_0000_0000_0000
    requires forall k :: listed[k] == if k in shards && 1 <= k <= i then multiset(shards[k])[node] else 0
    ensures |listed| == Load(shards, i, node)
  {
    if i == 0 {
      assert listed == multiset{};
    } else {
      var k: Int64 := i;
      if k in shards { OccurrencesCount(shards[k], node); }
      LoadIsListing(shards, i - 1, node, listed[k := 0]);
    }
  }
}
