/**
 The Raft test harness's control of servers: start, crash, connect, disconnect.

 The methods loop over the network's ends as the harness does; each is proved to
 change the wiring exactly as the operations of module `Wiring` say, and to give
 every restarted instance a persister of its own with the last persisted bytes.
 */
module RaftConfig {
  import opened Options
  import opened Persister
  import opened Labrpc
  import W = Wiring

  /** A Raft peer, of which the harness only needs the persister it was made with. */
  class Raft {
    const persister: Store

    constructor (persister: Store)
      ensures this.persister == persister
    {
      this.persister := persister;
    }
  }

  class Config {
    const n: nat
    const net: Network
    var connected: seq<bool>
    var endnames: seq<Option<seq<string>>>
    var saved: seq<Store?>
    var rafts: seq<Raft?>

    ghost function View(): W.Wires
      reads this, net
    {
      W.Wires(connected, endnames, net.enabled)
    }

    ghost predicate Valid()
      reads this, net
    {
      && W.WiresInv(View(), n)
      && |saved| == n && |rafts| == n
      && net.ends == net.enabled.Keys
    }

    /** Before any server is started. */
    constructor (n: nat)
      ensures Valid() && this.n == n && fresh(net)
      ensures View() == W.Wires(seq(n, i => false), seq(n, i => None), map[])
      ensures forall i :: 0 <= i < n ==> saved[i] == null && rafts[i] == null
    {
      this.n := n;
      net := new Network();
      connected := seq(n, i => false);
      endnames := seq(n, i => None);
      saved := seq(n, i => null);
      rafts := seq(n, i => null);
    }

    ghost predicate Running(i: nat)
      requires Valid() && i < n
      reads this, net
    {
      endnames[i].Some? && rafts[i] != null && saved[i] == rafts[i].persister
    }

    method StartAll(names: seq<seq<string>>)
      requires Valid() && |names| == n
      requires forall k :: 0 <= k < n ==> W.FreshNames(View(), names[k])
      requires forall k, l :: 0 <= k < l < n ==> forall e <- names[l] :: e !in names[k]
      modifies this, net
      ensures Valid() && forall k :: 0 <= k < n ==> Running(k)
    {
      for i := 0 to n
        invariant Valid()
        invariant forall k :: i <= k < n ==> W.FreshNames(View(), names[k])
        invariant forall k :: 0 <= k < i ==> Running(k)
      {
        ghost var v := View();
        W.DisconnectTouchesKnown(v, i, n);
        label before:
        Start1(i, names[i]);
        assert View().enabled.Keys == v.enabled.Keys + W.NameSet(names[i]);
        forall k | 0 <= k < i ensures Running(k) {
          assert old@before(Running(k));
          assert View().endnames == v.endnames[i := Some(names[i])];
        }
      }
    }

    method ConnectAll()
      requires Valid() && forall k :: 0 <= k < n ==> Running(k)
      modifies this`connected, net`enabled
      ensures Valid() && forall k :: 0 <= k < n ==> connected[k] && Running(k)
    {
      for i := 0 to n
        invariant Valid()
        invariant forall k :: 0 <= k < n ==> Running(k)
        invariant forall k :: 0 <= k < i ==> connected[k]
      {
        label before:
        assert Running(i);
        ConnectServer(i);
        assert forall k :: 0 <= k < n ==> old@before(Running(k));
      }
    }

    ghost predicate Wired()
      reads this, net
    {
      W.WellSized(View(), n) && forall j :: 0 <= j < n && connected[j] ==> endnames[j].Some?
    }

    method EnableOutgoing(i: nat)
      requires Wired() && i < n && endnames[i].Some?
      modifies net`enabled
      ensures net.enabled == W.SetAll(old(net.enabled), W.Outgoing(View(), i, n, false), true)
    {
      ghost var v := View();
      for j := 0 to n
        invariant net.enabled == W.SetAll(v.enabled, W.Outgoing(v, i, j, false), true)
      {
        W.OutgoingStep(v, i, j, false);
        if connected[j] {
          var endname := endnames[i].value[j];
          W.SetAllOne(v.enabled, W.Outgoing(v, i, j, false), endname, true);
          net.Enable(endname, true);
        }
      }
    }

    method EnableIncoming(i: nat)
      requires Wired() && i < n
      modifies net`enabled
      ensures net.enabled == W.SetAll(old(net.enabled), W.Incoming(View(), i, n, false), true)
    {
      ghost var v := View();
      for j := 0 to n
        invariant net.enabled == W.SetAll(v.enabled, W.Incoming(v, i, j, false), true)
      {
        W.IncomingStep(v, i, j, false);
        if connected[j] {
          var endname := endnames[j].value[i];
          W.SetAllOne(v.enabled, W.Incoming(v, i, j, false), endname, true);
          net.Enable(endname, true);
        }
      }
    }

    method DisableOutgoing(i: nat)
      requires Wired() && i < n
      modifies net`enabled
      ensures net.enabled == W.SetAll(old(net.enabled), W.Outgoing(View(), i, n, true), false)
    {
      ghost var v := View();
      for j := 0 to n
        invariant net.enabled == W.SetAll(v.enabled, W.Outgoing(v, i, j, true), false)
      {
        W.OutgoingStep(v, i, j, true);
        if endnames[i].Some? {
          var endname := endnames[i].value[j];
          W.SetAllOne(v.enabled, W.Outgoing(v, i, j, true), endname, false);
          net.Enable(endname, false);
        }
      }
    }

    method DisableIncoming(i: nat)
      requires Wired() && i < n
      modifies net`enabled
      ensures net.enabled == W.SetAll(old(net.enabled), W.Incoming(View(), i, n, true), false)
    {
      ghost var v := View();
      for j := 0 to n
        invariant net.enabled == W.SetAll(v.enabled, W.Incoming(v, i, j, true), false)
      {
        W.IncomingStep(v, i, j, true);
        if endnames[j].Some? {
          var endname := endnames[j].value[i];
          W.SetAllOne(v.enabled, W.Incoming(v, i, j, true), endname, false);
          net.Enable(endname, false);
        }
      }
    }

    method ConnectServer(i: nat)
      requires Valid() && i < n && endnames[i].Some?
      modifies this`connected, net`enabled
      ensures Valid() && View() == W.ConnectOp(old(View()), i)
    {
      connected := connected[i := true];
      ghost var v := View();
      EnableOutgoing(i);
      EnableIncoming(i);
      W.SetAllTwice(v.enabled, W.Outgoing(v, i, n, false), W.Incoming(v, i, n, false), true);
      W.ConnectKeeps(old(View()), i, n);
      W.ConnectTouchesKnown(old(View()), i, n);
    }

    method DisconnectServer(i: nat)
      requires Valid() && i < n
      modifies this`connected, net`enabled
      ensures Valid() && View() == W.DisconnectOp(old(View()), i)
    {
      connected := connected[i := false];
      ghost var v := View();
      DisableOutgoing(i);
      DisableIncoming(i);
      W.SetAllTwice(v.enabled, W.Outgoing(v, i, n, true), W.Incoming(v, i, n, true), false);
      W.DisconnectKeeps(old(View()), i, n);
      W.DisconnectTouchesKnown(old(View()), i, n);
    }

    /** Shuts a server down but keeps its persisted bytes, in a store no instance knows. */
    method Crash1(i: nat)
      requires Valid() && i < n
      modifies this`connected, this`saved, this`rafts, net`enabled, net`servers
      ensures Valid() && View() == W.DisconnectOp(old(View()), i)
      ensures net.servers == old(net.servers)[i := null]
      ensures rafts == old(rafts)[i := null]
      ensures forall j :: 0 <= j < n && j != i ==> saved[j] == old(saved[j])
      ensures old(saved[i]) == null ==> saved[i] == null
      ensures old(saved[i]) != null ==>
                && saved[i] != null && fresh(saved[i]) && fresh(saved[i].raftstate) && fresh(saved[i].snapshot)
                && saved[i].View() == old(saved[i].View())
    {
      DisconnectServer(i);
      net.DeleteServer(i);
      if saved[i] != null {
        var copy := saved[i].Copy();
        saved := saved[i := copy];
      }
      rafts := rafts[i := null];
      if saved[i] != null {
        var raftlog := saved[i].ReadRaftState();
        var snapshot := saved[i].ReadSnapshot();
        var store := new Store();
        saved := saved[i := store];
        store.SaveStateAndSnapshot(raftlog, snapshot);
      }
    }

    /** The loop that registers a restarted server's new ends, all disabled. */
    method MakeEnds(names: seq<string>)
      requires |names| == n && net.ends == net.enabled.Keys
      requires forall e <- names :: e !in net.enabled
      requires forall i, j :: 0 <= i < j < n ==> names[i] != names[j]
      modifies net`ends, net`enabled, net`connections
      ensures net.enabled == W.SetAll(old(net.enabled), W.NameSet(names), false) && net.ends == net.enabled.Keys
      ensures forall j :: 0 <= j < n ==> names[j] in net.connections && net.connections[names[j]] == Some(j)
    {
      for j := 0 to n
        invariant net.enabled == W.SetAll(old(net.enabled), W.NameSet(names[..j]), false)
        invariant net.ends == net.enabled.Keys
        invariant forall k :: 0 <= k < j ==> names[k] in net.connections && net.connections[names[k]] == Some(k)
      {
        assert names[j] !in names[..j];
        var fatal := net.MakeEnd(names[j]);
        assert !fatal;
        net.Connect(names[j], j);
        Prefix(names, j);
        W.SetAllOne(old(net.enabled), W.NameSet(names[..j]), names[j], false);
      }
      assert names[..n] == names;
    }

    lemma Prefix(names: seq<string>, j: nat)
      requires j < |names|
      ensures W.NameSet(names[..j + 1]) == W.NameSet(names[..j]) + {names[j]}
    {
      assert names[..j + 1] == names[..j] + [names[j]];
    }

    /** A fresh store with the bytes of the saved one, or an empty one. */
    method RenewSaved(i: nat)
      requires |saved| == n && i < n
      modifies this`saved
      ensures |saved| == n && saved[i] != null && fresh(saved[i])
      ensures forall j :: 0 <= j < n && j != i ==> saved[j] == old(saved[j])
      ensures saved[i].View() == if old(saved[i]) == null then Stored([], []) else old(saved[i].View())
    {
      if saved[i] != null {
        var copy := saved[i].Copy();
        saved := saved[i := copy];
      } else {
        var store := new Store();
        saved := saved[i := store];
      }
    }

    /** Starts or restarts a server with new ends and a store of its own. */
    method Start1(i: nat, names: seq<string>)
      requires Valid() && i < n && W.FreshNames(View(), names)
      modifies this, net
      ensures Valid() && View() == W.StartOp(old(View()), i, names)
      ensures forall j :: 0 <= j < n && j != i ==> saved[j] == old(saved[j]) && rafts[j] == old(rafts[j])
      ensures rafts[i] != null && saved[i] != null && fresh(rafts[i]) && fresh(saved[i])
      ensures rafts[i].persister == saved[i]
      ensures saved[i].View() == if old(saved[i]) == null then Stored([], []) else old(saved[i].View())
      ensures i in net.servers && net.servers[i] != null && fresh(net.servers[i])
      ensures forall j :: j != i && j in old(net.servers) ==> j in net.servers && net.servers[j] == old(net.servers[j])
      ensures forall j :: 0 <= j < n ==> names[j] in net.connections && net.connections[names[j]] == Some(j)
    {
      W.StartKeeps(old(View()), i, names, n);
      W.DisconnectTouchesKnown(old(View()), i, n);
      Crash1(i);
      endnames := endnames[i := Some(names)];
      MakeEnds(names);
      RenewSaved(i);
      var rf := new Raft(saved[i]);
      rafts := rafts[i := rf];
      var srv := new Server();
      net.AddServer(i, srv);
    }
  }

  /** A full set of servers, all started, then all connected. `names` are the random end names. */
  method MakeConfig(n: nat, names: seq<seq<string>>) returns (cfg: Config)
    requires |names| == n && forall k :: 0 <= k < n ==> |names[k]| == n
    requires forall k, i, j :: 0 <= k < n && 0 <= i < j < n ==> names[k][i] != names[k][j]
    requires forall k, l :: 0 <= k < l < n ==> forall e <- names[l] :: e !in names[k]
    ensures cfg.Valid() && cfg.n == n
    ensures forall k :: 0 <= k < n ==> cfg.connected[k] && cfg.Running(k)
    ensures forall i, j :: 0 <= i < n && 0 <= j < n ==>
              W.EndOf(cfg.View(), i, j) in cfg.net.enabled && cfg.net.enabled[W.EndOf(cfg.View(), i, j)]
  {
    cfg := new Config(n);
    cfg.StartAll(names);
    cfg.ConnectAll();
    assert forall i :: 0 <= i < n ==> cfg.Running(i);
    assert forall i, j :: 0 <= i < n && 0 <= j < n ==> W.IsEnd(cfg.View(), i, j);
  }
}
