/** Shard maps, and the edits that add and drop replicas of one shard in place. */
module ShardMap {
  import opened Options

  datatype NodeInfo = NodeInfo(address: string, port: int)

  type Hosts = seq<string>

  datatype State = State(nodes: map<string, NodeInfo>, shards: map<Int64, Hosts>, numShards: Int64)

  predicate Distinct<T(==)>(s: seq<T>) {
    forall i, j :: 0 <= i < j < |s| ==> s[i] != s[j]
  }

  /** Known nodes, each at most once. */
  predicate GoodHosts(nodes: set<string>, hosts: Hosts) {
    Distinct(hosts) && forall h <- hosts :: h in nodes
  }

  predicate ValidMap(s: State) {
    && |s.shards| <= s.numShards
    && forall k <- s.shards :: 1 <= k <= s.numShards && GoodHosts(s.nodes.Keys, s.shards[k])
  }

  function Elements<T>(s: seq<T>): set<T> {
    set x | x in s
  }

  lemma {:induction false} DistinctSize<T>(s: seq<T>)
    ensures |Elements(s)| <= |s|
    ensures Distinct(s) ==> |Elements(s)| == |s|
  {
    if s != [] {
      var front := s[..|s| - 1];
      DistinctSize(front);
      assert s == front + [s[|s| - 1]];
      assert Elements(s) == Elements(front) + {s[|s| - 1]};
      assert Distinct(s) ==> s[|s| - 1] !in front;
    }
  }

  lemma ElementsAppend<T>(s: seq<T>, x: T)
    ensures Elements(s + [x]) == Elements(s) + {x}
  {}

  lemma SubsetSize<T>(a: set<T>, b: set<T>)
    requires a <= b
    ensures |a| <= |b| && |b - a| == |b| - |a|
  {
    assert b == a + (b - a);
  }

  function UpTo(n: nat): set<Int64>
    requires n < 0x8000_0000_0000_0000
  {
    if n == 0 then {} else UpTo(n - 1) + {n}
  }

  lemma {:induction false} UpToSize(n: nat)
    requires n < 0x8000_0000_0000_0000
    ensures |UpTo(n)| == n && forall k :: k in UpTo(n) <==> 1 <= k <= n
  {
    if n > 0 { UpToSize(n - 1); }
  }

  /** The range test alone already limits how many shards a map can have. */
  lemma RangeLimitsSize(shards: map<Int64, Hosts>, numShards: nat)
    requires numShards < 0x8000_0000_0000_0000
    requires forall k <- shards :: 1 <= k <= numShards
    ensures |shards| <= numShards
  {
    UpToSize(numShards);
    SubsetSize(shards.Keys, UpTo(numShards));
  }

  // ---- reading a map --------------------------------------------------------------------

  method HostsValid(nodes: map<string, NodeInfo>, hosts: Hosts) returns (ok: bool)
    ensures ok <==> GoodHosts(nodes.Keys, hosts)
  {
    var seen: set<string> := {};
    for i := 0 to |hosts|
      invariant seen == Elements(hosts[..i]) && GoodHosts(nodes.Keys, hosts[..i])
    {
      assert hosts[i] in hosts;
      if hosts[i] !in nodes { return false; }
      if hosts[i] in seen {
        ghost var j :| 0 <= j < i && hosts[j] == hosts[i];
        return false;
      }
      seen := seen + {hosts[i]};
      assert hosts[..i + 1] == hosts[..i] + [hosts[i]];
    }
    assert hosts[..|hosts|] == hosts;
    return true;
  }

  method IsValid(s: State) returns (ok: bool)
    ensures ok <==> ValidMap(s)
    ensures ok <==>
              && |s.shards| <= s.numShards
              && forall k <- s.shards ::
                   && 1 <= k <= s.numShards
                   && (forall h <- s.shards[k] :: h in s.nodes)
                   && forall i, j :: 0 <= i < j < |s.shards[k]| ==> s.shards[k][i] != s.shards[k][j]
  {
    if |s.shards| > s.numShards { return false; }
    var todo := s.shards.Keys;
    while todo != {}
      invariant todo <= s.shards.Keys
      invariant forall k <- s.shards.Keys - todo :: 1 <= k <= s.numShards && GoodHosts(s.nodes.Keys, s.shards[k])
      decreases |todo|
    {
      var k :| k in todo;
      if k < 1 || k > s.numShards { return false; }
      var good := HostsValid(s.nodes, s.shards[k]);
      if !good { return false; }
      todo := todo - {k};
    }
    return true;
  }

  /** How often a node is listed for a shard. */
  function Occurrences(hosts: Hosts, node: string): nat {
    if hosts == [] then 0
    else Occurrences(hosts[..|hosts| - 1], node) + (if hosts[|hosts| - 1] == node then 1 else 0)
  }

  lemma {:induction false} OccurrencesCount(hosts: Hosts, node: string)
    ensures Occurrences(hosts, node) == multiset(hosts)[node]
  {
    if hosts != [] {
      OccurrencesCount(hosts[..|hosts| - 1], node);
      assert hosts == hosts[..|hosts| - 1] + [hosts[|hosts| - 1]];
    }
  }

  /** Lists the shard once for every place its hosts name the node. */
  method ListShard(shards: seq<Int64>, shard: Int64, hosts: Hosts, node: string) returns (r: seq<Int64>)
    ensures multiset(r) == multiset(shards)[shard := multiset(shards)[shard] + Occurrences(hosts, node)]
  {
    r := shards;
    for i := 0 to |hosts|
      invariant multiset(r) == multiset(shards)[shard := multiset(shards)[shard] + Occurrences(hosts[..i], node)]
    {
      assert hosts[..i + 1][..i] == hosts[..i];
      if hosts[i] == node { r := r + [shard]; }
    }
    assert hosts[..|hosts|] == hosts;
  }

  /** One entry per listing: a shard that lists the node twice appears twice. */
  method ShardsForNode(s: State, node: string) returns (shards: seq<Int64>)
    ensures forall k :: multiset(shards)[k] == if k in s.shards then multiset(s.shards[k])[node] else 0
    ensures ValidMap(s) ==> Distinct(shards) && forall k :: k in shards <==> k in s.shards && node in s.shards[k]
  {
    shards := [];
    var todo := s.shards.Keys;
    while todo != {}
      invariant todo <= s.shards.Keys
      invariant forall k :: multiset(shards)[k] ==
                  if k in s.shards && k !in todo then Occurrences(s.shards[k], node) else 0
      decreases |todo|
    {
      var k :| k in todo;
      shards := ListShard(shards, k, s.shards[k], node);
      todo := todo - {k};
    }
    if ValidMap(s) { ShardsForNodeInverse(s, node, shards); }
    forall k <- s.shards { OccurrencesCount(s.shards[k], node); }
  }

  lemma {:induction false} OccurrencesOnce(hosts: Hosts, node: string)
    requires Distinct(hosts)
    ensures Occurrences(hosts, node) == if node in hosts then 1 else 0
  {
    if hosts != [] {
      OccurrencesOnce(hosts[..|hosts| - 1], node);
      assert hosts == hosts[..|hosts| - 1] + [hosts[|hosts| - 1]];
    }
  }

  lemma {:induction false} MultisetDistinct(s: seq<Int64>)
    requires forall k :: multiset(s)[k] <= 1
    ensures Distinct(s)
  {
    if s != [] {
      var front := s[..|s| - 1];
      assert s == front + [s[|s| - 1]];
      assert forall k :: multiset(front)[k] <= multiset(s)[k];
      MultisetDistinct(front);
      assert multiset(s)[s[|s| - 1]] == multiset(front)[s[|s| - 1]] + 1;
      assert s[|s| - 1] !in front;
    }
  }

  /** On a valid map the list is duplicate-free and inverts the hosting relation. */
  lemma ShardsForNodeInverse(s: State, node: string, shards: seq<Int64>)
    requires ValidMap(s)
    requires forall k :: multiset(shards)[k] == if k in s.shards then Occurrences(s.shards[k], node) else 0
    ensures Distinct(shards)
    ensures forall k :: k in shards <==> k in s.shards && node in s.shards[k]
  {
    forall k ensures multiset(shards)[k] == if k in s.shards && node in s.shards[k] then 1 else 0 {
      if k in s.shards { OccurrencesOnce(s.shards[k], node); }
    }
    MultisetDistinct(shards);
    assert forall k :: k in shards <==> multiset(shards)[k] > 0;
  }

  // ---- editing one shard in place ------------------------------------------------------------

  /** The mutable map from shards to hosts that edits work on. */
  class Table {
    var entries: map<Int64, Hosts>

    constructor (entries: map<Int64, Hosts>)
      ensures this.entries == entries
    {
      this.entries := entries;
    }
  }

  predicate IsPerm(p: seq<nat>, n: nat) {
    |p| == n && Distinct(p) && forall i :: 0 <= i < n ==> p[i] < n
  }

  /** Some permutation of 0..n-1; callers may rely on nothing else. */
  method RandomPerm(n: nat) returns (p: seq<nat>)
    ensures IsPerm(p, n)
  {
    assert IsPerm(seq(n, i => i), n);
    p :| IsPerm(p, n);
  }

  /** The nodes not in `used`, in some order. */
  method FreeNodes(nodes: map<string, NodeInfo>, used: set<string>) returns (options: seq<string>)
    ensures Distinct(options) && Elements(options) == nodes.Keys - used
  {
    options := [];
    var todo := nodes.Keys;
    while todo != {}
      invariant todo <= nodes.Keys
      invariant Distinct(options) && Elements(options) == nodes.Keys - todo - used
      decreases |todo|
    {
      var node :| node in todo;
      assert node !in Elements(options);
      if node !in used {
        ElementsAppend(options, node);
        options := options + [node];
      }
      todo := todo - {node};
    }
  }

  predicate AddRefused(nodes: set<string>, hosts: Hosts, num: int, dst: seq<string>) {
    |hosts| + num > |nodes| || exists i :: 0 <= i < |dst| && (dst[i] in hosts || dst[i] in dst[..i])
  }

  /** `after` keeps the hosts, then the requested nodes, then other free nodes, `num` in all. */
  predicate Added(nodes: set<string>, hosts: Hosts, after: Hosts, num: int, dst: seq<string>) {
    && |after| == |hosts| + num
    && hosts + dst <= after
    && Distinct(after[|hosts| + |dst|..])
    && forall h <- after[|hosts| + |dst|..] :: h in nodes && h !in hosts && h !in dst
  }

  /** Appends the requested nodes, unless one is already a host. */
  method AppendRequested(hosts: Hosts, dst: seq<string>) returns (refused: bool, after: Hosts)
    ensures refused <==> exists i :: 0 <= i < |dst| && (dst[i] in hosts || dst[i] in dst[..i])
    ensures !refused ==> after == hosts + dst
  {
    var hostSet := Elements(hosts);
    after := hosts;
    for i := 0 to |dst|
      invariant after == hosts + dst[..i] && hostSet == Elements(after)
      invariant forall j :: 0 <= j < i ==> dst[j] !in hosts && dst[j] !in dst[..j]
    {
      if dst[i] in hostSet { return true, after; }
      hostSet := hostSet + {dst[i]};
      after := after + [dst[i]];
    }
    return false, after;
  }

  /** There are enough free nodes for what the requested ones leave open. */
  lemma EnoughOptions(nodes: set<string>, taken: Hosts, options: seq<string>)
    requires Distinct(options) && Elements(options) == nodes - Elements(taken)
    ensures |options| >= |nodes| - |taken|
  {
    DistinctSize(options);
    DistinctSize(taken);
    SubsetSize(nodes * Elements(taken), nodes);
    SubsetSize(nodes * Elements(taken), Elements(taken));
    assert nodes - Elements(taken) == nodes - nodes * Elements(taken);
  }

  /** Chosen nodes in the order of a permutation. */
  method AppendChosen(taken: Hosts, options: seq<string>, perm: seq<nat>, num: int) returns (after: Hosts)
    requires Distinct(options) && IsPerm(perm, |options|) && 0 <= num <= |options|
    ensures |after| == |taken| + num && taken <= after && Distinct(after[|taken|..])
    ensures forall h <- after[|taken|..] :: h in options
  {
    after := taken;
    ghost var chosen: seq<string> := [];
    for i := 0 to num
      invariant |chosen| == i && after == taken + chosen
      invariant forall j :: 0 <= j < i ==> chosen[j] == options[perm[j]]
    {
      chosen := chosen + [options[perm[i]]];
      after := after + [options[perm[i]]];
    }
    assert after[|taken|..] == chosen;
  }

  datatype Outcome = Done | Refused | Panicked

  /** Hosts to add in all: requested nodes are added even if they are more than asked for. */
  function NumAdded(num: int, dst: seq<string>): nat {
    if num > |dst| then num else |dst|
  }

  /**
   Adds hosts to a shard. On requests that the documentation rules out the program
   panics if it is asked for more nodes than there are, and otherwise obliges.
   */
  method AddReplicas(nodes: map<string, NodeInfo>, t: Table, shard: Int64, num: int, dst: seq<string>)
    returns (r: Outcome)
    modifies t
    ensures
      var hosts := old(Lookup(t.entries, shard, []));
      && (r.Refused? <==> AddRefused(nodes.Keys, hosts, num, dst))
      && (r.Panicked? <==> !AddRefused(nodes.Keys, hosts, num, dst) && |hosts| + |dst| > |nodes|)
      && (!r.Done? ==> t.entries == old(t.entries))
      && (r.Done? ==>
            && shard in t.entries && t.entries == old(t.entries)[shard := t.entries[shard]]
            && Added(nodes.Keys, hosts, t.entries[shard], NumAdded(num, dst), dst))
  {
    var hosts := Lookup(t.entries, shard, []);
    if |hosts| + num > |nodes| { return Refused; }
    var refused, taken := AppendRequested(hosts, dst);
    if refused { return Refused; }
    if |nodes| - |taken| < 0 { return Panicked; }
    var options := FreeNodes(nodes, Elements(taken));
    EnoughOptions(nodes.Keys, taken, options);
    var perm := RandomPerm(|options|);
    var after := AppendChosen(taken, options, perm, NumAdded(num, dst) - |dst|);
    assert forall h <- after[|taken|..] :: h in Elements(options);
    t.entries := t.entries[shard := after];
    return Done;
  }

  predicate DropRefused(hosts: Hosts, num: int, src: seq<string>) {
    |hosts| < num || |src| > num || exists x <- src :: x !in hosts
  }

  /** `num` hosts fewer, drawn from the old ones; on a valid entry without the requested ones. */
  predicate Dropped(hosts: Hosts, after: Hosts, num: int, src: seq<string>) {
    && |after| == |hosts| - num
    && (forall h <- after :: h in hosts)
    && (Distinct(hosts) ==> Distinct(after) && forall h <- after :: h !in src)
  }

  /** The hosts left when each requested node is taken out once. */
  method Candidates(hosts: Hosts, src: seq<string>) returns (rest: set<string>, candidates: Hosts)
    ensures rest == Elements(src) - Elements(hosts)
    ensures |candidates| >= |hosts| - |Elements(src)| + |rest|
    ensures forall h <- candidates :: h in hosts
    ensures Distinct(hosts) ==> Distinct(candidates) && forall h <- candidates :: h !in src
  {
    rest := Elements(src);
    candidates := [];
    for i := 0 to |hosts|
      invariant rest == Elements(src) - Elements(hosts[..i])
      invariant |candidates| + |Elements(src)| == i + |rest|
      invariant forall h <- candidates :: h in hosts[..i]
      invariant Distinct(hosts) ==> Distinct(candidates) && forall h <- candidates :: h !in src
    {
      assert hosts[..i + 1] == hosts[..i] + [hosts[i]];
      assert Distinct(hosts) ==> hosts[i] !in hosts[..i];
      if hosts[i] !in rest {
        candidates := candidates + [hosts[i]];
      } else {
        rest := rest - {hosts[i]};
      }
    }
    assert hosts[..|hosts|] == hosts;
  }

  /** Removes `num` hosts from a shard. */
  method DropReplicas(t: Table, shard: Int64, num: int, src: seq<string>) returns (err: bool)
    modifies t
    ensures
      var hosts := old(Lookup(t.entries, shard, []));
      && err == DropRefused(hosts, num, src)
      && (err ==> t.entries == old(t.entries))
      && (!err ==>
            && shard in t.entries && t.entries == old(t.entries)[shard := t.entries[shard]]
            && Dropped(hosts, t.entries[shard], num, src))
  {
    var hosts := Lookup(t.entries, shard, []);
    if |hosts| < num { return true; }
    if |src| > num { return true; }
    var rest, candidates := Candidates(hosts, src);
    DistinctSize(src);
    if |rest| > 0 {
      assert exists x :: x in rest && x in src && x !in hosts;
      return true;
    }
    assert rest == {};
    assert forall x <- src :: x in Elements(src) && x !in rest;
    var perm := RandomPerm(|hosts| - |src|);
    var after: Hosts := [];
    for i := 0 to |hosts| - num
      invariant |after| == i
      invariant forall j :: 0 <= j < i ==> after[j] == candidates[perm[j]]
    {
      after := after + [candidates[perm[i]]];
    }
    t.entries := t.entries[shard := after];
    return false;
  }

  // ---- what the edits mean on a valid map ------------------------------------------------------

  /** Adding keeps an entry good, keeps every old host and puts the requested nodes in. */
  lemma AddedGood(nodes: set<string>, hosts: Hosts, after: Hosts, num: int, dst: seq<string>)
    requires GoodHosts(nodes, hosts) && (forall d <- dst :: d in nodes)
    requires !AddRefused(nodes, hosts, num, dst) && Added(nodes, hosts, after, num, dst)
    ensures GoodHosts(nodes, after) && (forall h <- hosts :: h in after) && forall d <- dst :: d in after
  {
    var more := after[|hosts| + |dst|..];
    assert after == hosts + dst + more;
    forall i, j | 0 <= i < j < |dst| ensures dst[i] != dst[j] { assert dst[i] in dst[..j]; }
    forall i, j | 0 <= i < j < |after| ensures after[i] != after[j] {
      if j >= |hosts| + |dst| && i < |hosts| + |dst| {
        assert after[j] in more;
        assert after[i] in hosts || after[i] in dst;
      } else if j >= |hosts| + |dst| {
        assert after[i] == more[i - |hosts| - |dst|] && after[j] == more[j - |hosts| - |dst|];
      }
    }
  }

  lemma DroppedGood(nodes: set<string>, hosts: Hosts, after: Hosts, num: int, src: seq<string>)
    requires GoodHosts(nodes, hosts) && Dropped(hosts, after, num, src)
    ensures GoodHosts(nodes, after) && Elements(after) <= Elements(hosts) - Elements(src)
  {}

  /** An addition is refused for want of nodes, or because a requested one is a host already or requested twice. */
  lemma AddRefusedExact(nodes: set<string>, hosts: Hosts, num: int, dst: seq<string>)
    ensures AddRefused(nodes, hosts, num, dst) <==>
              |hosts| + num > |nodes| || (exists d <- dst :: d in hosts) || !Distinct(dst)
  {
    forall i | 0 <= i < |dst| ensures dst[i] in dst[..i] <==> exists j :: 0 <= j < i && dst[j] == dst[i] {}
    if exists d <- dst :: d in hosts {
      var d :| d in dst && d in hosts;
      var i :| 0 <= i < |dst| && dst[i] == d;
      assert dst[i] in hosts;
    }
    if !Distinct(dst) {
      var i, j :| 0 <= i < j < |dst| && dst[i] == dst[j];
      assert dst[j] in dst[..j];
    }
  }

  /** What is added: the requested nodes and as many free ones as are still wanted, after the old hosts. */
  lemma AddedExact(nodes: set<string>, hosts: Hosts, after: Hosts, num: int, dst: seq<string>)
    requires Added(nodes, hosts, after, num, dst)
    ensures |after| == |hosts| + num && after[..|hosts|] == hosts
    ensures |dst| <= num && after[|hosts|..|hosts| + |dst|] == dst
    ensures forall i :: |hosts| + |dst| <= i < |after| ==> after[i] in nodes && after[i] !in after[..i]
  {
    var more := after[|hosts| + |dst|..];
    assert after[..|hosts| + |dst|] == hosts + dst;
    assert (hosts + dst)[..|hosts|] == hosts && (hosts + dst)[|hosts|..] == dst;
    forall i | |hosts| + |dst| <= i < |after| ensures after[i] in nodes && after[i] !in after[..i] {
      assert after[i] == more[i - |hosts| - |dst|] && after[i] in more;
      forall j | 0 <= j < i ensures after[j] != after[i] {
        if j < |hosts| + |dst| {
          assert after[j] == (hosts + dst)[j];
          assert after[j] in hosts || after[j] in dst;
        } else {
          assert after[j] == more[j - |hosts| - |dst|] != more[i - |hosts| - |dst|];
        }
      }
    }
  }

  lemma DropRefusedExact(hosts: Hosts, num: int, src: seq<string>)
    ensures DropRefused(hosts, num, src) <==>
              |hosts| < num || |src| > num || !(Elements(src) <= Elements(hosts))
  {
    forall x | x in src ensures x in Elements(src) && (x in hosts <==> x in Elements(hosts)) {}
    if forall x <- src :: x in hosts {
      assert forall x :: x in Elements(src) ==> x in Elements(hosts);
    }
  }

  /** Dropping one requested host from a valid entry leaves exactly the others. */
  lemma DroppedOne(hosts: Hosts, after: Hosts, x: string)
    requires Distinct(hosts) && x in hosts && Dropped(hosts, after, 1, [x])
    ensures Elements(after) == Elements(hosts) - {x} && |after| == |hosts| - 1
  {
    assert x in [x];
    DistinctSize(hosts);
    DistinctSize(after);
    var others := Elements(hosts) - {x};
    assert Elements(after) <= others && |others| == |hosts| - 1;
    SubsetSize(Elements(after), others);
    assert others - Elements(after) == {};
  }
}
