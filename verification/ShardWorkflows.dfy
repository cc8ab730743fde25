/**
 Moving shards and draining nodes of a running cluster.

 A workflow edits a private copy of the shard map in place and then publishes
 it; the published table is shared with every reader from then on. The class
 remembers every table it published, so its invariant says that no later edit
 ever reaches a published table.
 */
module ShardWorkflows {
  import opened Options
  import opened ShardMap

  /** What readers of the shard map see: a reference to the published table. */
  datatype Snapshot = Snapshot(nodes: map<string, NodeInfo>, numShards: Int64, table: Table)

  predicate Hosted(s: State, k: Int64) {
    k in s.shards && s.shards[k] != []
  }

  /** The next map is valid, hosts every shard that was hosted, and keeps one of its hosts. */
  predicate GoodStep(a: State, b: State) {
    && ValidMap(b) && b.nodes == a.nodes && b.numShards == a.numShards
    && forall k <- a.shards :: a.shards[k] != [] ==> k in b.shards && exists h <- a.shards[k] :: h in b.shards[k]
  }

  predicate GoodLog(log: seq<State>) {
    && log != [] && ValidMap(log[0])
    && forall k :: 0 < k < |log| ==> GoodStep(log[k - 1], log[k])
  }

  lemma GoodLogAppend(log: seq<State>, s: State)
    requires GoodLog(log) && GoodStep(log[|log| - 1], s)
    ensures GoodLog(log + [s])
  {
    var longer := log + [s];
    forall k | 0 < k < |longer| ensures GoodStep(longer[k - 1], longer[k]) {
      if k < |log| { assert GoodStep(log[k - 1], log[k]); }
    }
  }

  lemma {:induction false} GoodLogValid(log: seq<State>, k: nat)
    requires GoodLog(log) && k < |log|
    ensures ValidMap(log[k]) && log[k].nodes == log[0].nodes && log[k].numShards == log[0].numShards
  {
    if k > 0 {
      GoodLogValid(log, k - 1);
      assert GoodStep(log[k - 1], log[k]);
    }
  }

  lemma SameStep(s: State)
    requires ValidMap(s)
    ensures GoodStep(s, s)
  {
    forall k <- s.shards | s.shards[k] != [] ensures exists h <- s.shards[k] :: h in s.shards[k] {
      assert s.shards[k][0] in s.shards[k];
    }
  }

  // ---- one shard edited -----------------------------------------------------------------

  lemma SizeAfterEdit(s: State, k: Int64, hosts: Hosts)
    requires ValidMap(s) && 1 <= k <= s.numShards && GoodHosts(s.nodes.Keys, hosts)
    ensures ValidMap(s.(shards := s.shards[k := hosts]))
  {
    RangeLimitsSize(s.shards[k := hosts], s.numShards);
  }

  /** Replacing the hosts of one shard is a good step if they are good and keep an old host. */
  lemma EditStep(s: State, k: Int64, hosts: Hosts)
    requires ValidMap(s) && 1 <= k <= s.numShards && GoodHosts(s.nodes.Keys, hosts)
    requires Hosted(s, k) ==> exists h <- s.shards[k] :: h in hosts
    ensures GoodStep(s, s.(shards := s.shards[k := hosts]))
  {
    SizeAfterEdit(s, k, hosts);
    SameStep(s);
  }

  // ---- many shards edited ----------------------------------------------------------------

  /** The shards in `done` got one more host, unless every node hosted them; others are as before. */
  predicate Grown(nodes: set<string>, old_: map<Int64, Hosts>, mid: map<Int64, Hosts>, done: set<Int64>) {
    && mid.Keys == old_.Keys
    && forall k <- old_ ::
         if k in done && |old_[k]| < |nodes| then Added(nodes, old_[k], mid[k], 1, []) else mid[k] == old_[k]
  }

  /** The shards in `done` lost the node; others are as before. */
  predicate Shrunk(mid: map<Int64, Hosts>, fin: map<Int64, Hosts>, done: set<Int64>, node: string) {
    && fin.Keys == mid.Keys
    && forall k <- mid :: if k in done then Dropped(mid[k], fin[k], 1, [node]) else fin[k] == mid[k]
  }

  lemma GrownGood(s: State, mid: map<Int64, Hosts>, done: set<Int64>)
    requires ValidMap(s) && Grown(s.nodes.Keys, s.shards, mid, done)
    ensures GoodStep(s, s.(shards := mid))
    ensures forall k <- s.shards, h <- s.shards[k] :: h in mid[k]
  {
    forall k <- s.shards
      ensures GoodHosts(s.nodes.Keys, mid[k]) && forall h <- s.shards[k] :: h in mid[k]
    {
      if k in done && |s.shards[k]| < |s.nodes| {
        assert !AddRefused(s.nodes.Keys, s.shards[k], 1, []);
        AddedGood(s.nodes.Keys, s.shards[k], mid[k], 1, []);
      }
    }
    assert |mid.Keys| == |s.shards.Keys|;
    forall k <- s.shards | s.shards[k] != [] ensures exists h <- s.shards[k] :: h in mid[k] {
      assert s.shards[k][0] in s.shards[k];
    }
  }

  lemma StillHosted(s: State, mid: map<Int64, Hosts>, shards: seq<Int64>, node: string)
    requires ValidMap(s) && Grown(s.nodes.Keys, s.shards, mid, Elements(shards))
    requires forall k <- shards :: k in s.shards && node in s.shards[k]
    ensures forall k <- shards :: k in mid && node in mid[k]
  {
    GrownGood(s, mid, Elements(shards));
  }

  lemma ShrunkValid(s: State, fin: map<Int64, Hosts>, done: set<Int64>, node: string)
    requires ValidMap(s) && Shrunk(s.shards, fin, done, node)
    ensures ValidMap(s.(shards := fin))
  {
    forall k <- s.shards ensures GoodHosts(s.nodes.Keys, fin[k]) {
      if k in done { DroppedGood(s.nodes.Keys, s.shards[k], fin[k], 1, [node]); }
    }
    assert |fin.Keys| == |s.shards.Keys|;
  }

  lemma ShrunkGood(s: State, fin: map<Int64, Hosts>, done: set<Int64>, node: string)
    requires ValidMap(s) && Shrunk(s.shards, fin, done, node)
    requires forall k <- done :: k in s.shards && |s.shards[k]| >= 2
    ensures GoodStep(s, s.(shards := fin))
  {
    ShrunkValid(s, fin, done, node);
    forall k <- s.shards | s.shards[k] != [] ensures exists h <- s.shards[k] :: h in fin[k] {
      if k in done { assert fin[k][0] in fin[k]; } else { assert s.shards[k][0] in fin[k]; }
    }
  }

  /** The end of a drain: the node hosts nothing, and replica counts are as promised. */
  predicate Drained(s: State, fin: State, node: string) {
    && ValidMap(fin) && fin.nodes == s.nodes && fin.numShards == s.numShards && fin.shards.Keys == s.shards.Keys
    && forall k <- s.shards ::
         && node !in fin.shards[k]
         && (node !in s.shards[k] ==> fin.shards[k] == s.shards[k])
         && (forall h <- s.shards[k] :: h != node ==> h in fin.shards[k])
         && (node in s.shards[k] ==>
               |fin.shards[k]| == if |s.shards[k]| < |s.nodes| then |s.shards[k]| else |s.shards[k]| - 1)
  }

  /** The shards a node hosts. */
  function ShardsOf(s: State, node: string): set<Int64> {
    set k | k in s.shards && node in s.shards[k]
  }

  lemma DrainedBy(s: State, news: seq<State>, node: string)
    requires ValidMap(s) && DrainedIn(s, news, node)
    ensures Drained(s, news[3], node)
  {
    var mid, fin := news[0].shards, news[3].shards;
    GrownGood(s, mid, ShardsOf(s, node));
    ShrunkValid(s.(shards := mid), fin, ShardsOf(s, node), node);
    forall k <- s.shards ensures node !in fin[k] {
      if k in ShardsOf(s, node) {
        assert Dropped(mid[k], fin[k], 1, [node]) && Distinct(mid[k]);
        assert node in [node];
      }
    }
    forall k <- s.shards, h <- s.shards[k] | h != node ensures h in fin[k] {
      assert h in mid[k];
      if k in ShardsOf(s, node) {
        DroppedOne(mid[k], fin[k], node);
        assert h in Elements(mid[k]) - {node};
      }
    }
  }

  /** With two nodes, every shard a node hosts has two hosts before the node is taken out. */
  lemma TwoHosts(s: State, mid: map<Int64, Hosts>, node: string)
    requires ValidMap(s) && Grown(s.nodes.Keys, s.shards, mid, ShardsOf(s, node)) && |s.nodes| >= 2
    ensures forall k <- ShardsOf(s, node) :: k in mid && |mid[k]| >= 2
  {}

  /** One host more for one shard. */
  function AfterAdd(s: State, shard: Int64, dst: string): State {
    s.(shards := s.shards[shard := Lookup(s.shards, shard, []) + [dst]])
  }

  /** What a move publishes, for every outcome; every map is published twice. */
  predicate Moved(s: State, shard: Int64, src: string, dst: string, news: seq<State>, err: bool) {
    var hosts := Lookup(s.shards, shard, []);
    var mid := AfterAdd(s, shard, dst);
    if src == dst then !err && news == []
    else if AddRefused(s.nodes.Keys, hosts, 1, [dst]) then err && news == []
    else if src !in hosts then err && news == [mid, mid]
    else
      && !err && |news| == 4 && news == [mid, mid, news[3], news[3]]
      && shard in news[3].shards && news[3] == mid.(shards := mid.shards[shard := news[3].shards[shard]])
      && Dropped(hosts + [dst], news[3].shards[shard], 1, [src])
  }

  /** What a drain publishes: first the map with the extra hosts, then the one without the node. */
  predicate DrainedIn(s: State, news: seq<State>, node: string) {
    && |news| == 4 && news == [news[0], news[0], news[3], news[3]]
    && news[0] == s.(shards := news[0].shards) && news[3] == s.(shards := news[3].shards)
    && Grown(s.nodes.Keys, s.shards, news[0].shards, ShardsOf(s, node))
    && Shrunk(news[0].shards, news[3].shards, ShardsOf(s, node), node)
  }

  // ---- the workflows ---------------------------------------------------------------------------

  datatype Workflow =
    | Move(shard: Int64, src: string, dst: string)
    | Drain(node: string)

  /** Two publications were added. */
  ghost predicate Extended(before: seq<Table>, after: seq<Table>) {
    |after| == |before| + 2 && before <= after
  }

  class TestSetup {
    var current: Snapshot
    /** Every map published so far, and the table each was published in. */
    ghost var log: seq<State>
    ghost var tables: seq<Table>

    ghost predicate Valid()
      reads this, current.table, tables
    {
      && log != [] && |tables| == |log|
      && (forall k :: 0 <= k < |log| ==> tables[k].entries == log[k].shards)
      && tables[|tables| - 1] == current.table
      && log[|log| - 1] == State(current.nodes, current.table.entries, current.numShards)
    }

    /** The latest published map. */
    ghost function Latest(): State
      requires log != []
      reads this
    {
      log[|log| - 1]
    }

    constructor (state: State)
      ensures Valid() && log == [state] && fresh(tables[0])
    {
      var t := new Table(state.shards);
      current := Snapshot(state.nodes, state.numShards, t);
      log, tables := [state], [t];
    }

    /** Installs the edited table; the second, identical update is the wait for listeners. */
    method UpdateShardMapping(t: Table)
      requires Valid()
      modifies this
      ensures Valid()
      ensures var s := old(Latest()).(shards := t.entries); log == old(log) + [s, s]
      ensures tables == old(tables) + [t, t]
    {
      current := Snapshot(current.nodes, current.numShards, t);
      log := log + [State(current.nodes, t.entries, current.numShards)];
      tables := tables + [t];
      current := Snapshot(current.nodes, current.numShards, t);
      log := log + [State(current.nodes, t.entries, current.numShards)];
      tables := tables + [t];
    }

    /** A deep copy of the published table. */
    method CopyTable() returns (t: Table)
      requires Valid()
      ensures fresh(t) && t.entries == Latest().shards
    {
      var copied: map<Int64, Hosts> := map[];
      var todo := current.table.entries.Keys;
      while todo != {}
        invariant todo <= current.table.entries.Keys
        invariant copied == current.table.entries - todo
        decreases |todo|
      {
        var k :| k in todo;
        copied := copied[k := current.table.entries[k]];
        todo := todo - {k};
      }
      t := new Table(copied);
    }

    /** Copies one shard to `dst` and publishes. */
    method PublishAdd(shard: Int64, dst: string) returns (err: bool)
      requires Valid()
      modifies this
      ensures Valid()
      ensures err == AddRefused(old(Latest()).nodes.Keys, old(Lookup(Latest().shards, shard, [])), 1, [dst])
      ensures err ==> log == old(log) && tables == old(tables)
      ensures !err ==>
                && log == old(log) + [AfterAdd(old(Latest()), shard, dst), AfterAdd(old(Latest()), shard, dst)]
                && Extended(old(tables), tables) && fresh(tables[|old(tables)|]) && fresh(tables[|old(tables)| + 1])
    {
      ghost var hosts := Lookup(Latest().shards, shard, []);
      var t := CopyTable();
      var r := AddReplicas(current.nodes, t, shard, 1, [dst]);
      err := r.Refused?;
      if err { return; }
      assert t.entries[shard] == hosts + [dst];
      UpdateShardMapping(t);
    }

    /** Takes one shard off `src` and publishes. */
    method PublishDrop(shard: Int64, src: string) returns (err: bool)
      requires Valid()
      modifies this
      ensures Valid()
      ensures err == DropRefused(old(Lookup(Latest().shards, shard, [])), 1, [src])
      ensures err ==> log == old(log) && tables == old(tables)
      ensures !err ==>
                && log == old(log) + [Latest(), Latest()]
                && shard in Latest().shards
                && Latest() == old(Latest()).(shards := old(Latest().shards)[shard := Latest().shards[shard]])
                && Dropped(old(Lookup(Latest().shards, shard, [])), Latest().shards[shard], 1, [src])
                && Extended(old(tables), tables) && fresh(tables[|old(tables)|]) && fresh(tables[|old(tables)| + 1])
    {
      var t := CopyTable();
      err := DropReplicas(t, shard, 1, [src]);
      if err { return; }
      UpdateShardMapping(t);
    }

    /** Copies the shard to `dst`, publishes, then takes it off `src` and publishes again. */
    method MoveShard(shard: Int64, src: string, dst: string) returns (err: bool)
      requires Valid()
      modifies this
      ensures Valid() && old(log) <= log && old(tables) <= tables
      ensures forall k :: |old(tables)| <= k < |tables| ==> fresh(tables[k])
      ensures Moved(old(Latest()), shard, src, dst, log[|old(log)|..], err)
    {
      assert log[|old(log)|..] == [];
      if src == dst { return false; }
      ghost var s := Latest();
      err := PublishAdd(shard, dst);
      if err {
        assert log[|old(log)|..] == [];
        return;
      }
      ghost var mid := Latest();
      assert log[|old(log)|..] == [mid, mid];
      MoveDropRefused(Lookup(s.shards, shard, []), src, dst);
      err := PublishDrop(shard, src);
      if err {
        assert log[|old(log)|..] == [mid, mid];
      } else {
        assert log[|old(log)|..] == [mid, mid, Latest(), Latest()];
      }
    }

    /** Adds a host for every shard of the node where possible, then publishes. */
    method PublishGrown(shards: seq<Int64>) returns (err: bool)
      requires Valid() && Distinct(shards) && forall k <- shards :: k in Latest().shards
      modifies this
      ensures Valid() && !err
      ensures log == old(log) + [Latest(), Latest()] && Extended(old(tables), tables)
      ensures fresh(tables[|old(tables)|]) && fresh(tables[|old(tables)| + 1])
      ensures Latest() == old(Latest()).(shards := Latest().shards)
      ensures Grown(old(Latest()).nodes.Keys, old(Latest()).shards, Latest().shards, Elements(shards))
    {
      var t := CopyTable();
      err := GrowShards(t, |current.nodes|, shards, Latest());
      if err { return; }
      UpdateShardMapping(t);
    }

    /** Takes the node off the shards, then publishes. */
    method PublishShrunk(shards: seq<Int64>, node: string) returns (err: bool)
      requires Valid() && Distinct(shards)
      requires forall k <- shards :: k in Latest().shards && node in Latest().shards[k]
      modifies this
      ensures Valid() && !err
      ensures log == old(log) + [Latest(), Latest()] && Extended(old(tables), tables)
      ensures fresh(tables[|old(tables)|]) && fresh(tables[|old(tables)| + 1])
      ensures Latest() == old(Latest()).(shards := Latest().shards)
      ensures Shrunk(old(Latest()).shards, Latest().shards, Elements(shards), node)
    {
      var t := CopyTable();
      err := ShrinkShards(t, shards, node, Latest().shards);
      if err { return; }
      UpdateShardMapping(t);
    }

    /** Phase one of a drain: another host for every shard of the node, where possible. */
    method GrowNode(node: string) returns (err: bool, shards: seq<Int64>)
      requires Valid() && ValidMap(Latest())
      modifies this
      ensures Valid() && !err && Distinct(shards) && Elements(shards) == ShardsOf(old(Latest()), node)
      ensures log == old(log) + [Latest(), Latest()] && Latest() == old(Latest()).(shards := Latest().shards)
      ensures Extended(old(tables), tables) && fresh(tables[|old(tables)|]) && fresh(tables[|old(tables)| + 1])
      ensures Grown(old(Latest()).nodes.Keys, old(Latest()).shards, Latest().shards, Elements(shards))
      ensures forall k <- shards :: k in Latest().shards && node in Latest().shards[k]
    {
      ghost var s := Latest();
      shards := HostedShards(node);
      err := PublishGrown(shards);
      if err { return; }
      StillHosted(s, Latest().shards, shards, node);
    }

    /** Gives every shard of the node another host where possible, then takes the node off them. */
    method DrainNode(node: string) returns (err: bool)
      requires Valid() && ValidMap(Latest())
      modifies this
      ensures Valid() && old(log) <= log && old(tables) <= tables
      ensures forall k :: |old(tables)| <= k < |tables| ==> fresh(tables[k])
      ensures !err && DrainedIn(old(Latest()), log[|old(log)|..], node)
    {
      var shards;
      err, shards := GrowNode(node);
      if err { return; }
      ghost var mid := Latest();
      err := PublishShrunk(shards, node);
      TailOfFour(old(log), mid, Latest());
    }

    method HostedShards(node: string) returns (shards: seq<Int64>)
      requires Valid() && ValidMap(Latest())
      ensures Distinct(shards) && Elements(shards) == ShardsOf(Latest(), node)
      ensures forall k <- shards :: k in Latest().shards && node in Latest().shards[k]
    {
      shards := ShardsForNode(State(current.nodes, current.table.entries, current.numShards), node);
    }

    method GrowShards(t: Table, numNodes: nat, shards: seq<Int64>, ghost s: State) returns (err: bool)
      requires current.nodes == s.nodes && numNodes == |s.nodes| && t.entries == s.shards
      requires Distinct(shards) && forall k <- shards :: k in s.shards
      modifies t
      ensures !err && Grown(s.nodes.Keys, s.shards, t.entries, Elements(shards))
    {
      err := false;
      for i := 0 to |shards|
        invariant !err && current.nodes == s.nodes
        invariant Grown(s.nodes.Keys, s.shards, t.entries, Elements(shards[..i]))
      {
        var shard := shards[i];
        assert shard in shards && shard !in shards[..i];
        assert shards[..i + 1] == shards[..i] + [shard];
        if |t.entries[shard]| < numNodes {
          var r := AddReplicas(current.nodes, t, shard, 1, []);
          err := r.Refused?;
          if err { return; }
        }
      }
      assert shards[..|shards|] == shards;
    }

    method ShrinkShards(t: Table, shards: seq<Int64>, node: string, ghost mid: map<Int64, Hosts>) returns (err: bool)
      requires t.entries == mid
      requires Distinct(shards) && forall k <- shards :: k in mid && node in mid[k]
      modifies t
      ensures !err && Shrunk(mid, t.entries, Elements(shards), node)
    {
      err := false;
      for i := 0 to |shards|
        invariant !err && Shrunk(mid, t.entries, Elements(shards[..i]), node)
      {
        var shard := shards[i];
        assert shard in shards && shard !in shards[..i];
        assert shards[..i + 1] == shards[..i] + [shard];
        err := DropReplicas(t, shard, 1, [node]);
        if err { return; }
      }
      assert shards[..|shards|] == shards;
    }

    method RunMove(shard: Int64, src: string, dst: string)
      requires Valid() && GoodLog(log) && dst in Latest().nodes && 1 <= shard <= Latest().numShards
      modifies this
      ensures Valid() && GoodLog(log) && old(log) <= log && old(tables) <= tables
    {
      var err := MoveShard(shard, src, dst);
      MovedGood(old(log), shard, src, dst, log[|old(log)|..], err);
      assert log == old(log) + log[|old(log)|..];
    }

    method RunDrain(node: string)
      requires Valid() && GoodLog(log) && |Latest().nodes| >= 2
      modifies this
      ensures Valid() && GoodLog(log) && old(log) <= log && old(tables) <= tables
    {
      GoodLogValid(log, |log| - 1);
      var err := DrainNode(node);
      DrainedGood(old(log), log[|old(log)|..], node);
      assert log == old(log) + log[|old(log)|..];
    }

    method RunOne(w: Workflow)
      requires Valid() && GoodLog(log) && |Latest().nodes| >= 2
      requires w.Move? ==> w.dst in Latest().nodes && 1 <= w.shard <= Latest().numShards
      modifies this
      ensures Valid() && GoodLog(log) && old(log) <= log && old(tables) <= tables
    {
      match w
      case Move(shard, src, dst) => RunMove(shard, src, dst);
      case Drain(node) => RunDrain(node);
    }

    /** Any sequence of moves and drains publishes only good steps, and never touches a published table again. */
    method Run(workflows: seq<Workflow>)
      requires Valid() && GoodLog(log) && |log[0].nodes| >= 2
      requires forall w <- workflows :: w.Move? ==> w.dst in log[0].nodes && 1 <= w.shard <= log[0].numShards
      modifies this
      ensures Valid() && GoodLog(log) && old(log) <= log && old(tables) <= tables
    {
      for i := 0 to |workflows|
        invariant Valid() && GoodLog(log) && old(log) <= log && old(tables) <= tables
      {
        assert workflows[i] in workflows && log[0] == old(log[0]);
        GoodLogValid(log, |log| - 1);
        RunOne(workflows[i]);
      }
    }
  }

  /** After copying a shard, taking it off `src` is refused iff `src` never hosted it. */
  lemma MoveDropRefused(hosts: Hosts, src: string, dst: string)
    requires src != dst
    ensures DropRefused(hosts + [dst], 1, [src]) <==> src !in hosts
  {
    assert [src][0] == src;
    assert src in hosts + [dst] <==> src in hosts;
  }

  /**
   What a move does to a valid map, in plain terms. It fails on a full cluster, on a
   destination that is a host already, and on a source that is none; only in the last
   case has it published anything, the copy on the destination. Otherwise the
   destination takes the place of the source among the shard's hosts, and no other
   shard changes.
   */
  lemma MoveExact(s: State, shard: Int64, src: string, dst: string, news: seq<State>, err: bool)
    requires ValidMap(s) && Moved(s, shard, src, dst, news, err)
    ensures
      var hosts := Lookup(s.shards, shard, []);
      && (src == dst ==> !err && news == [])
      && (src != dst ==>
            && (err <==> |hosts| >= |s.nodes| || dst in hosts || src !in hosts)
            && (err ==> news == if |hosts| < |s.nodes| && dst !in hosts
                                then [AfterAdd(s, shard, dst), AfterAdd(s, shard, dst)] else [])
            && (!err ==>
                  && |news| == 4 && news[1] == news[0] && news[3] == news[2] && shard in news[3].shards
                  && Elements(news[3].shards[shard]) == Elements(hosts) - {src} + {dst}
                  && |news[3].shards[shard]| == |hosts|
                  && (forall k <- news[3].shards :: k != shard ==> k in s.shards && news[3].shards[k] == s.shards[k])
                  && (forall k <- s.shards :: k in news[3].shards)))
  {
    var hosts := Lookup(s.shards, shard, []);
    AddRefusedExact(s.nodes.Keys, hosts, 1, [dst]);
    assert [dst][0] == dst;
    if src != dst && !err {
      assert Distinct(hosts + [dst]);
      DroppedOne(hosts + [dst], news[3].shards[shard], src);
      assert Elements(hosts + [dst]) == Elements(hosts) + {dst};
    }
  }

  lemma AddStep(s: State, shard: Int64, dst: string)
    requires ValidMap(s) && 1 <= shard <= s.numShards && dst in s.nodes
    requires !AddRefused(s.nodes.Keys, Lookup(s.shards, shard, []), 1, [dst])
    ensures GoodStep(s, AfterAdd(s, shard, dst))
  {
    var hosts := Lookup(s.shards, shard, []);
    assert dst !in hosts by { assert [dst][0] == dst; }
    if Hosted(s, shard) { assert hosts[0] in hosts && hosts[0] in hosts + [dst]; }
    EditStep(s, shard, hosts + [dst]);
  }

  lemma DropStep(s: State, shard: Int64, src: string, after: Hosts)
    requires ValidMap(s) && shard in s.shards && |s.shards[shard]| >= 2
    requires Dropped(s.shards[shard], after, 1, [src])
    ensures GoodStep(s, s.(shards := s.shards[shard := after]))
  {
    DroppedGood(s.nodes.Keys, s.shards[shard], after, 1, [src]);
    assert after[0] in after && after[0] in s.shards[shard];
    EditStep(s, shard, after);
  }

  /** A move to a known node keeps every published map valid and every hosted shard hosted. */
  lemma MovedGood(log: seq<State>, shard: Int64, src: string, dst: string, news: seq<State>, err: bool)
    requires GoodLog(log) && Moved(log[|log| - 1], shard, src, dst, news, err)
    requires dst in log[|log| - 1].nodes && 1 <= shard <= log[|log| - 1].numShards
    ensures GoodLog(log + news)
  {
    var s := log[|log| - 1];
    GoodLogValid(log, |log| - 1);
    if news == [] {
      assert log + news == log;
    } else {
      AddStep(s, shard, dst);
      var mid := AfterAdd(s, shard, dst);
      TwoMore(log, mid);
      if |news| == 4 {
        DropStep(mid, shard, src, news[3].shards[shard]);
        FourMore(log, mid, news[3]);
        assert log + news == log + [mid, mid] + [news[3], news[3]];
      }
    }
  }

  lemma DrainSteps(s: State, mid: State, fin: State, node: string)
    requires ValidMap(s) && |s.nodes| >= 2
    requires mid == s.(shards := mid.shards) && Grown(s.nodes.Keys, s.shards, mid.shards, ShardsOf(s, node))
    requires fin == mid.(shards := fin.shards) && Shrunk(mid.shards, fin.shards, ShardsOf(s, node), node)
    ensures GoodStep(s, mid) && GoodStep(mid, fin)
  {
    GrownGood(s, mid.shards, ShardsOf(s, node));
    TwoHosts(s, mid.shards, node);
    ShrunkGood(mid, fin.shards, ShardsOf(s, node), node);
  }

  /** So does a drain in a cluster of at least two nodes. */
  lemma DrainedGood(log: seq<State>, news: seq<State>, node: string)
    requires GoodLog(log) && DrainedIn(log[|log| - 1], news, node) && |log[|log| - 1].nodes| >= 2
    ensures GoodLog(log + news)
  {
    GoodLogValid(log, |log| - 1);
    DrainSteps(log[|log| - 1], news[0], news[3], node);
    FourMore(log, news[0], news[3]);
    assert log + news == log + [news[0], news[0]] + [news[3], news[3]];
  }

  /** In a cluster of one node a drain unhosts exactly the shards the node hosted. */
  lemma LoneNodeDrained(s: State, news: seq<State>, node: string, k: Int64)
    requires ValidMap(s) && DrainedIn(s, news, node) && |s.nodes| == 1 && Hosted(s, k)
    ensures Hosted(news[3], k) <==> node !in s.shards[k]
  {
    DistinctSize(s.shards[k]);
    SubsetSize(Elements(s.shards[k]), s.nodes.Keys);
  }

  lemma TwoMore(log: seq<State>, s: State)
    requires GoodLog(log) && GoodStep(log[|log| - 1], s)
    ensures GoodLog(log + [s, s])
  {
    GoodLogAppend(log, s);
    SameStep(s);
    GoodLogAppend(log + [s], s);
    assert log + [s] + [s] == log + [s, s];
  }

  lemma TailOfFour<T>(log: seq<T>, a: T, b: T)
    ensures (log + [a, a] + [b, b])[|log|..] == [a, a, b, b]
  {}

  lemma FourMore(log: seq<State>, a: State, b: State)
    requires GoodLog(log) && GoodStep(log[|log| - 1], a) && GoodStep(a, b)
    ensures GoodLog(log + [a, a] + [b, b])
  {
    TwoMore(log, a);
    TwoMore(log + [a, a], b);
  }
}
