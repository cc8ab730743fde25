/**
 The path of a request through the network's tables, on the heap.

 A request keeps in local variables what it read when it looked its end up. The
 methods are the critical sections of the goroutine that processes it, and those
 of the harness that touch the same tables; each is proved to do to the tables
 and to the request exactly what its action does in `CrashProtocol`. The others
 (`Elsewhere`) touch neither.
 */
module RequestPath {
  import opened Options
  import opened Labrpc
  import C = CrashProtocol

  /** The local variables of the goroutine of one request. */
  class Local {
    const endname: string
    var servername: Option<nat>
    var server: Server?
    var reliable: bool
    var replyOK: bool
    var replyLen: nat

    constructor (endname: string)
      ensures this.endname == endname && !replyOK
    {
      this.endname := endname;
      servername, server, reliable, replyOK, replyLen := None, null, true, false, 0;
    }
  }

  /** The network's tables are those of the protocol; objects are told apart by identity. */
  ghost predicate TablesAgree(net: Network, objects: seq<Server>, view: C.Net, servers: map<nat, nat>,
                              count: nat, bytes: nat)
    reads net
  {
    && net.enabled == view.enabled && net.reliable == view.reliable
    && (forall e :: Lookup(net.connections, e, None) ==
          if e in view.connections then Some(view.connections[e]) else None)
    && (forall i <- servers :: servers[i] < |objects|)
    && (forall i :: Lookup(net.servers, i, null) == if i in servers then objects[servers[i]] else null)
    && net.count == count && net.bytes == bytes
  }

  /** Each server object counts its own dispatches. */
  ghost predicate ObjectsAgree(objects: seq<Server>, served: seq<nat>)
    reads objects
  {
    && |objects| == |served|
    && (forall o, p :: 0 <= o < p < |objects| ==> objects[o] != objects[p])
    && (forall o :: 0 <= o < |objects| ==> objects[o].count == served[o])
  }

  ghost predicate LocalAgrees(p: Local, q: C.Req, objects: seq<Server>)
    reads p
  {
    && p.endname == q.end
    && (q.waiter == C.Routed || q.dispatches == 1 ==>
          && p.servername == Some(q.name) && p.reliable == q.reliable
          && q.server < |objects| && p.server == objects[q.server])
    && (q.waiter == C.Waiting ==> !p.replyOK)
    && (q.waiter.Checking? ==> p.replyOK == q.waiter.got)
    && (q.waiter == C.Checking(true) || q.waiter == C.Sending ==>
          q.handler.Finished? && p.replyLen == q.handler.replyLen)
  }

  ghost predicate LocalsAgree(locals: seq<Local>, reqs: seq<C.Req>, objects: seq<Server>)
    reads locals
  {
    && |locals| == |reqs|
    && (forall r, t :: 0 <= r < t < |locals| ==> locals[r] != locals[t])
    && (forall r :: 0 <= r < |locals| ==> LocalAgrees(locals[r], reqs[r], objects))
  }

  predicate Shaped(reqs: seq<C.Req>) {
    forall r :: 0 <= r < |reqs| ==> C.ReqShape(reqs[r])
  }

  lemma ShapedStep(s: C.Sys, a: C.Action)
    requires C.Enabled(s, a) && Shaped(s.reqs)
    ensures Shaped(C.Apply(s, a).reqs)
  {
    var s' := C.Apply(s, a);
    forall r | 0 <= r < |s'.reqs| ensures C.ReqShape(s'.reqs[r]) {
      if r < |s.reqs| {
        assert C.ReqShape(s.reqs[r]);
        ShapedReq(s, a, r);
      }
    }
  }

  lemma ShapedReq(s: C.Sys, a: C.Action, r: nat)
    requires C.Enabled(s, a) && r < |s.reqs| && C.ReqShape(s.reqs[r])
    ensures r < |C.Apply(s, a).reqs| && C.ReqShape(C.Apply(s, a).reqs[r])
  {}

  /** Steps that touch no table, no server object and no local variable. */
  predicate IsElsewhere(s: C.Sys, a: C.Action) {
    || a.OtherSave? || a.HandlerSave? || a.HandlerReturn? || a.DropRequest? || a.Deliver? || a.Fail?
    || a.BeginCrash? || a.BeginStart? || (a.Drive? && !s.ctl.Deleting? && !s.ctl.Adding?)
  }

  lemma ElsewhereFrame(s: C.Sys, a: C.Action)
    requires C.Enabled(s, a) && IsElsewhere(s, a)
    ensures
      var t := C.Apply(s, a);
      && t.net == s.net && t.servers == s.servers && t.count == s.count && t.bytes == s.bytes
      && t.served == s.served && |t.reqs| == |s.reqs|
  {}

  lemma ElsewhereReq(s: C.Sys, a: C.Action, r: nat)
    requires C.Enabled(s, a) && IsElsewhere(s, a) && Shaped(s.reqs) && r < |s.reqs|
    ensures
      var q, q' := s.reqs[r], C.Apply(s, a).reqs[r];
      && q'.end == q.end && q'.name == q.name && q'.server == q.server && q'.reliable == q.reliable
      && q'.dispatches == q.dispatches
      && (q'.waiter == q.waiter || q'.waiter.Failing? || q'.waiter.Replied?)
      && (q.handler.Finished? ==> q'.handler == q.handler)
  {
    assert C.ReqShape(s.reqs[r]);
  }

  /** The step that registers a restarted server. */
  function Added(s: C.Sys): (t: C.Sys)
    requires s.ctl.Adding?
    ensures t == C.Apply(s, C.Drive)
  {
    s.(objs := s.objs + [s.ctl.inst], served := s.served + [0],
       servers := s.servers[s.ctl.i := |s.objs|], ctl := C.Rest)
  }

  class Runtime {
    const net: Network
    /** Every server object ever registered. */
    var objects: seq<Server>
    var locals: seq<Local>
    ghost var sys: C.Sys

    ghost predicate Valid()
      reads this, net, objects, locals
    {
      && TablesAgree(net, objects, sys.net, sys.servers, sys.count, sys.bytes)
      && ObjectsAgree(objects, sys.served)
      && |objects| == |sys.objs|
      && LocalsAgree(locals, sys.reqs, objects)
      && Shaped(sys.reqs)
    }

    /** Everything agrees but perhaps one request. */
    ghost predicate ValidBut(r: nat)
      reads this, net, objects, locals
    {
      && TablesAgree(net, objects, sys.net, sys.servers, sys.count, sys.bytes)
      && ObjectsAgree(objects, sys.served)
      && |objects| == |sys.objs|
      && |locals| == |sys.reqs| && Shaped(sys.reqs)
      && (forall t, u :: 0 <= t < u < |locals| ==> locals[t] != locals[u])
      && (forall t :: 0 <= t < |locals| && t != r ==> LocalAgrees(locals[t], sys.reqs[t], objects))
    }

    /** A step that changes one request and nothing else. */
    ghost method SetReq(a: C.Action, r: nat, q: C.Req)
      requires ValidBut(r) && r < |locals| && LocalAgrees(locals[r], q, objects) && C.ReqShape(q)
      requires C.Enabled(sys, a) && C.Apply(sys, a) == sys.(reqs := sys.reqs[r := q])
      modifies this`sys
      ensures Valid() && sys == C.Apply(old(sys), a) && sys.reqs == old(sys.reqs)[r := q]
    {
      sys := sys.(reqs := sys.reqs[r := q]);
    }

    constructor ()
      ensures Valid() && C.Init(sys) && fresh(net)
    {
      net := new Network();
      objects, locals := [], [];
      sys := C.Sys(C.Net(map[], map[], true), map[], [], [], [], [], map[], [], 0, 0, 0, C.Rest);
    }

    /** The single goroutine that takes requests counts one and hands it to a goroutine of its own. */
    method Submit(end: string, argLen: nat)
      requires Valid()
      modifies this`locals, this`sys, net`count, net`bytes
      ensures Valid() && sys == C.Apply(old(sys), C.Submit(end, argLen))
    {
      net.count := net.count + 1;
      net.bytes := net.bytes + argLen;
      var p := new Local(end);
      locals := locals + [p];
      ShapedStep(sys, C.Submit(end, argLen));
      sys := C.Apply(sys, C.Submit(end, argLen));
    }

    /** Looks the end up; whether the request goes on to a server. */
    method Route(r: nat) returns (on: bool)
      requires Valid() && C.InStage(sys, r, C.Accepted)
      modifies this`sys, locals[r]
      ensures Valid() && sys == C.Apply(old(sys), C.Route(r))
      ensures on == sys.reqs[r].waiter.Routed?
      ensures
        var p := locals[r];
        && p.servername == Lookup(net.connections, p.endname, None)
        && p.server == (if p.servername.Some? then Lookup(net.servers, p.servername.value, null) else null)
        && (on <==> Lookup(net.enabled, p.endname, false) && p.server != null)
    {
      var p := locals[r];
      var isEnabled;
      isEnabled, p.servername, p.server, p.reliable := net.ReadEndnameInfo(p.endname);
      on := isEnabled && p.servername.Some? && p.server != null;
      RoutedLocal(r, isEnabled);
      SetReq(C.Route(r), r, C.RouteReq(sys, sys.reqs[r]));
    }

    /** What the look-up found decides as the protocol does. */
    lemma RoutedLocal(r: nat, isEnabled: bool)
      requires TablesAgree(net, objects, sys.net, sys.servers, sys.count, sys.bytes)
      requires r < |locals| == |sys.reqs| && sys.reqs[r].waiter.Accepted? && C.ReqShape(sys.reqs[r])
      requires
        var p := locals[r];
        && p.endname == sys.reqs[r].end
        && isEnabled == Lookup(net.enabled, p.endname, false)
        && p.servername == Lookup(net.connections, p.endname, None)
        && p.server == (if p.servername.Some? then Lookup(net.servers, p.servername.value, null) else null)
        && p.reliable == net.reliable
      ensures
        var p, q := locals[r], C.RouteReq(sys, sys.reqs[r]);
        && LocalAgrees(p, q, objects) && C.ReqShape(q)
        && (q.waiter.Routed? <==> isEnabled && p.servername.Some? && p.server != null)
    {}

    /** Starts the handler on the object that was looked up, which counts the request. */
    method Dispatch(r: nat)
      requires Valid() && C.InStage(sys, r, C.Routed)
      modifies this`sys, locals[r], objects
      ensures Valid() && C.Enabled(old(sys), C.Dispatch(r)) && sys == C.Apply(old(sys), C.Dispatch(r))
    {
      var p := locals[r];
      p.replyOK := false;
      p.server.Dispatch();
      ShapedStep(sys, C.Dispatch(r));
      sys := C.Apply(sys, C.Dispatch(r));
    }

    /** The loop's case for a reply, of `n` bytes. */
    method TakeReply(r: nat, n: nat)
      requires Valid() && C.Enabled(sys, C.TakeReply(r)) && sys.reqs[r].handler.replyLen == n
      modifies this`sys, locals[r]
      ensures Valid() && sys == C.Apply(old(sys), C.TakeReply(r))
    {
      locals[r].replyOK := true;
      locals[r].replyLen := n;
      SetReq(C.TakeReply(r), r, sys.reqs[r].(waiter := C.Checking(true)));
    }

    /** The loop's case for a timeout: whether the server is found dead, which ends the loop. */
    method Poll(r: nat) returns (serverDead: bool)
      requires Valid() && C.InStage(sys, r, C.Waiting)
      modifies this`sys
      ensures Valid() && sys == C.Apply(old(sys), C.Poll(r))
      ensures serverDead == sys.reqs[r].waiter.Checking?
      ensures locals[r].servername.Some?
      ensures !serverDead <==> Lookup(net.enabled, locals[r].endname, false) &&
                               Lookup(net.servers, locals[r].servername.value, null) == locals[r].server
    {
      var p := locals[r];
      serverDead := net.IsServerDead(p.endname, p.servername.value, p.server);
      ServerDeadAgrees(r, serverDead);
      if serverDead { SetReq(C.Poll(r), r, sys.reqs[r].(waiter := C.Checking(false))); }
    }

    /** After the loop: whether a reply goes out. `drop` is the choice of an unreliable network. */
    method FinalCheck(r: nat, drop: bool) returns (ok: bool)
      requires Valid() && C.Enabled(sys, C.FinalCheck(r, drop))
      modifies this`sys
      ensures Valid() && sys == C.Apply(old(sys), C.FinalCheck(r, drop))
      ensures ok == C.Acked(sys.reqs[r])
      ensures locals[r].servername.Some?
      ensures ok <==>
                && locals[r].replyOK && !drop
                && Lookup(net.enabled, locals[r].endname, false)
                && Lookup(net.servers, locals[r].servername.value, null) == locals[r].server
    {
      var p := locals[r];
      var serverDead := net.IsServerDead(p.endname, p.servername.value, p.server);
      ServerDeadAgrees(r, serverDead);
      ok := p.replyOK && !serverDead && !drop;
      SetReq(C.FinalCheck(r, drop), r, C.CheckReq(sys, sys.reqs[r], drop));
    }

    /** Comparing object identities decides whether the name still stands for the object looked up. */
    lemma ServerDeadAgrees(r: nat, dead: bool)
      requires TablesAgree(net, objects, sys.net, sys.servers, sys.count, sys.bytes)
      requires ObjectsAgree(objects, sys.served) && r < |locals| == |sys.reqs|
      requires LocalAgrees(locals[r], sys.reqs[r], objects) && sys.reqs[r].dispatches == 1
      requires !dead <==> Lookup(net.enabled, locals[r].endname, false) &&
                          Lookup(net.servers, locals[r].servername.value, null) == locals[r].server
      ensures dead == C.ServerDead(sys, sys.reqs[r])
    {
      var q := sys.reqs[r];
      if q.name in sys.servers {
        assert objects[sys.servers[q.name]] == objects[q.server] <==> sys.servers[q.name] == q.server;
      }
    }

    /** The network counts the bytes of a reply before it hands the reply over. */
    method CountBytes(r: nat)
      requires Valid() && C.Enabled(sys, C.CountBytes(r))
      modifies this`sys, net`bytes
      ensures Valid() && sys == C.Apply(old(sys), C.CountBytes(r))
    {
      net.bytes := net.bytes + locals[r].replyLen;
      ShapedStep(sys, C.CountBytes(r));
      sys := C.Apply(sys, C.CountBytes(r));
    }

    /** A crash takes the server object out of the table; requests that hold it will find it dead. */
    method DeleteServer(i: nat)
      requires Valid() && sys.ctl.Deleting? && sys.ctl.i == i
      modifies this`sys, net`servers
      ensures Valid() && sys == C.Apply(old(sys), C.Drive)
    {
      net.DeleteServer(i);
      ShapedStep(sys, C.Drive);
      sys := C.Apply(sys, C.Drive);
    }

    /** A server object that no request has ever looked up. */
    method NewObject() returns (rs: Server)
      requires ObjectsAgree(objects, sys.served) && LocalsAgree(locals, sys.reqs, objects)
      modifies this`objects
      ensures fresh(rs) && objects == old(objects) + [rs]
      ensures ObjectsAgree(objects, sys.served + [0]) && LocalsAgree(locals, sys.reqs, objects)
    {
      rs := new Server();
      ghost var before := objects;
      objects := objects + [rs];
      LocalsKept(before);
    }

    /** A restart registers a new object. */
    method AddServer(i: nat)
      requires Valid() && sys.ctl.Adding? && sys.ctl.i == i
      modifies this`sys, this`objects, net`servers
      ensures Valid() && sys == C.Apply(old(sys), C.Drive)
      ensures |objects| == |old(objects)| + 1 && fresh(objects[|old(objects)|])
    {
      var rs := NewObject();
      net.AddServer(i, rs);
      AddedTables(i);
      sys := Added(sys);
    }

    lemma AddedTables(i: nat)
      requires |objects| == |sys.objs| + 1 && |sys.served| == |sys.objs|
      requires forall j <- sys.servers :: sys.servers[j] < |sys.objs|
      requires forall j :: Lookup(net.servers, j, null) ==
                 if j == i then objects[|sys.objs|]
                 else if j in sys.servers then objects[sys.servers[j]] else null
      requires net.enabled == sys.net.enabled && net.reliable == sys.net.reliable
      requires forall e :: Lookup(net.connections, e, None) ==
                 if e in sys.net.connections then Some(sys.net.connections[e]) else None
      requires net.count == sys.count && net.bytes == sys.bytes
      ensures TablesAgree(net, objects, sys.net, sys.servers[i := |sys.objs|], sys.count, sys.bytes)
    {}

    lemma LocalsKept(before: seq<Server>)
      requires before <= objects && LocalsAgree(locals, sys.reqs, before)
      ensures LocalsAgree(locals, sys.reqs, objects)
    {
      forall r | 0 <= r < |locals| ensures LocalAgrees(locals[r], sys.reqs[r], objects) {
        assert LocalAgrees(locals[r], sys.reqs[r], before);
      }
    }

    method Enable(endname: string, on: bool)
      requires Valid()
      modifies this`sys, net`enabled
      ensures Valid()
      ensures sys == C.Apply(old(sys), C.SetNet(old(sys).net.(enabled := old(sys).net.enabled[endname := on])))
    {
      net.Enable(endname, on);
      ShapedStep(sys, C.SetNet(sys.net.(enabled := sys.net.enabled[endname := on])));
      sys := C.Apply(sys, C.SetNet(sys.net.(enabled := sys.net.enabled[endname := on])));
    }

    ghost method Elsewhere(a: C.Action)
      requires Valid() && C.Enabled(sys, a) && IsElsewhere(sys, a)
      modifies this`sys
      ensures Valid() && sys == C.Apply(old(sys), a)
    {
      ShapedStep(sys, a);
      ElsewhereFrame(sys, a);
      var t := C.Apply(sys, a);
      forall r | 0 <= r < |locals| ensures LocalAgrees(locals[r], t.reqs[r], objects) {
        assert LocalAgrees(locals[r], sys.reqs[r], objects);
        ElsewhereReq(sys, a, r);
      }
      sys := t;
    }
  }
}
