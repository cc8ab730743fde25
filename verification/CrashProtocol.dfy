/**
 RPC requests racing with crashes and restarts, as one state machine.

 Every request has a goroutine that waits for it (`waiter`) and a handler that
 may go on running after the waiter has given up. The harness's single driver
 crashes and restarts servers one critical section at a time. Instances that
 were superseded keep running and keep saving to the persister they were given.
 Enabling ends, connecting them and making the network unreliable may happen at
 any moment, so every schedule of the harness is among the runs.
 */
module CrashProtocol {
  import opened Options
  import P = Persister

  /** One save; the serial number says which save it was, `author` which instance made it. */
  datatype Save = Save(serial: nat, author: nat, state: Bytes, snap: Option<Bytes>)

  /** A persister: its bytes, and the saves that led to them through all its copies. */
  datatype Disk = Disk(data: P.Stored, lineage: seq<Save>)

  datatype Instance = Instance(name: nat, disk: nat)

  datatype Waiter =
    | Accepted
    | Routed
    | Waiting
    | Checking(got: bool)
    | Sending
    | Counted
    | Failing
    | Replied(ok: bool)

  datatype Handler = Unstarted | Running | Finished(replyLen: nat)

  /** `name` and `server` are what the waiter read when it looked the end up. */
  datatype Req = Req(
    end: string, argLen: nat, waiter: Waiter, handler: Handler, name: nat, server: nat, reliable: bool,
    dispatches: nat, replies: nat, saves: seq<Save>)

  /** Where the driver is inside crash1 or start1 for server `i`. */
  datatype Ctl =
    | Rest
    | Deleting(i: nat, restart: bool)
    | Copying(i: nat, restart: bool)
    | Killing(i: nat, restart: bool)
    | ReadingState(i: nat, restart: bool)
    | ReadingSnap(i: nat, restart: bool, state: Bytes)
    | Resaving(i: nat, restart: bool, state: Bytes, snap: Bytes)
    | Renewing(i: nat)
    | Making(i: nat)
    | Adding(i: nat, inst: nat)

  datatype Net = Net(enabled: map<string, bool>, connections: map<string, nat>, reliable: bool)

  datatype Sys = Sys(
    net: Net,
    servers: map<nat, nat>,      // registered server objects, by server name
    objs: seq<nat>,              // the instance behind each server object ever made
    served: seq<nat>,            // incoming RPCs per server object
    insts: seq<Instance>,        // every instance ever made
    disks: seq<Disk>,            // every persister ever made
    saved: map<nat, nat>,        // the harness's persister for each server
    reqs: seq<Req>,              // requests in the order they were accepted
    count: nat, bytes: nat, serial: nat, ctl: Ctl)

  datatype Action =
    | Submit(end: string, argLen: nat)
    | Route(r: nat)
    | DropRequest(r: nat)
    | Dispatch(r: nat)
    | HandlerSave(r: nat, state: Bytes, snap: Option<Bytes>)
    | HandlerReturn(r: nat, replyLen: nat)
    | OtherSave(inst: nat, state: Bytes, snap: Option<Bytes>)
    | TakeReply(r: nat)
    | Poll(r: nat)
    | FinalCheck(r: nat, drop: bool)
    | CountBytes(r: nat)
    | Deliver(r: nat)
    | Fail(r: nat)
    | SetNet(net: Net)
    | BeginCrash(i: nat)
    | BeginStart(i: nat)
    | Drive

  // ---- steps ------------------------------------------------------------------------

  function WriteData(d: P.Stored, sv: Save): P.Stored {
    P.Stored(sv.state, if sv.snap.Some? then sv.snap.value else d.snapshot)
  }

  function WriteDisk(disks: seq<Disk>, d: nat, sv: Save): seq<Disk>
    requires d < |disks|
  {
    disks[d := Disk(WriteData(disks[d].data, sv), disks[d].lineage + [sv])]
  }

  /** The end is disabled, or the name no longer stands for this server object. */
  predicate ServerDead(s: Sys, q: Req) {
    !Lookup(s.net.enabled, q.end, false) || q.name !in s.servers || s.servers[q.name] != q.server
  }

  predicate InStage(s: Sys, r: nat, w: Waiter) {
    r < |s.reqs| && s.reqs[r].waiter == w
  }

  predicate Enabled(s: Sys, a: Action) {
    match a
    case Submit(_, _) => true
    case Route(r) => InStage(s, r, Accepted)
    case DropRequest(r) => InStage(s, r, Routed) && !s.reqs[r].reliable
    case Dispatch(r) => InStage(s, r, Routed) && s.reqs[r].server < |s.served|
    case HandlerSave(r, _, _) =>
      && r < |s.reqs| && s.reqs[r].handler.Running? && s.reqs[r].server < |s.objs|
      && s.objs[s.reqs[r].server] < |s.insts| && s.insts[s.objs[s.reqs[r].server]].disk < |s.disks|
    case HandlerReturn(r, _) => r < |s.reqs| && s.reqs[r].handler.Running?
    case OtherSave(k, _, _) => k < |s.insts| && s.insts[k].disk < |s.disks|
    case TakeReply(r) => InStage(s, r, Waiting) && s.reqs[r].handler.Finished?
    case Poll(r) => InStage(s, r, Waiting)
    case FinalCheck(r, drop) => r < |s.reqs| && s.reqs[r].waiter.Checking? && (drop ==> !s.reqs[r].reliable)
    case CountBytes(r) => InStage(s, r, Sending) && s.reqs[r].handler.Finished?
    case Deliver(r) => InStage(s, r, Counted)
    case Fail(r) => InStage(s, r, Failing)
    case SetNet(_) => true
    case BeginCrash(_) => s.ctl.Rest?
    case BeginStart(_) => s.ctl.Rest?
    case Drive =>
      match s.ctl
      case Rest => false
      case Copying(i, _) => i in s.saved ==> s.saved[i] < |s.disks|
      case ReadingState(i, _) => i in s.saved ==> s.saved[i] < |s.disks|
      case ReadingSnap(i, _, _) => i in s.saved && s.saved[i] < |s.disks|
      case Resaving(i, _, _, _) => i in s.saved && s.saved[i] < |s.disks|
      case Renewing(i) => i in s.saved ==> s.saved[i] < |s.disks|
      case Making(i) => i in s.saved
      case _ => true
  }

  /** The waiter's look-up: it goes on only with an enabled end and a registered server. */
  function RouteReq(s: Sys, q: Req): Req {
    if Lookup(s.net.enabled, q.end, false) && q.end in s.net.connections && s.net.connections[q.end] in s.servers then
      q.(waiter := Routed, name := s.net.connections[q.end], server := s.servers[s.net.connections[q.end]],
         reliable := s.net.reliable)
    else q.(waiter := Failing)
  }

  /** The check after the loop: no positive reply from a server that is no longer registered. */
  function CheckReq(s: Sys, q: Req, drop: bool): Req
    requires q.waiter.Checking?
  {
    if !q.waiter.got || ServerDead(s, q) || drop then q.(waiter := Failing) else q.(waiter := Sending)
  }

  /** One critical section of crash1 or start1. */
  function DriveOnce(s: Sys): Sys
    requires Enabled(s, Drive)
  {
    match s.ctl
    case Deleting(i, restart) => s.(servers := s.servers - {i}, ctl := Copying(i, restart))
    case Copying(i, restart) =>
      if i in s.saved then
        s.(disks := s.disks + [s.disks[s.saved[i]]], saved := s.saved[i := |s.disks|], ctl := Killing(i, restart))
      else s.(ctl := Killing(i, restart))
    case Killing(i, restart) => s.(ctl := ReadingState(i, restart))
    case ReadingState(i, restart) =>
      if i in s.saved then s.(ctl := ReadingSnap(i, restart, s.disks[s.saved[i]].data.raftstate))
      else s.(ctl := if restart then Renewing(i) else Rest)
    case ReadingSnap(i, restart, state) =>
      s.(ctl := Resaving(i, restart, state, s.disks[s.saved[i]].data.snapshot))
    case Resaving(i, restart, state, snap) =>
      s.(disks := s.disks + [Disk(P.Stored(state, snap), s.disks[s.saved[i]].lineage)],
         saved := s.saved[i := |s.disks|], ctl := if restart then Renewing(i) else Rest)
    case Renewing(i) =>
      var d := if i in s.saved then s.disks[s.saved[i]] else Disk(P.Stored([], []), []);
      s.(disks := s.disks + [d], saved := s.saved[i := |s.disks|], ctl := Making(i))
    case Making(i) => s.(insts := s.insts + [Instance(i, s.saved[i])], ctl := Adding(i, |s.insts|))
    case Adding(i, inst) =>
      s.(objs := s.objs + [inst], served := s.served + [0], servers := s.servers[i := |s.objs|], ctl := Rest)
  }

  function SaveOn(s: Sys, k: nat, sv: Save): Sys
    requires k < |s.insts| && s.insts[k].disk < |s.disks|
  {
    s.(disks := WriteDisk(s.disks, s.insts[k].disk, sv), serial := s.serial + 1)
  }

  function Apply(s: Sys, a: Action): Sys
    requires Enabled(s, a)
  {
    match a
    case Submit(end, n) =>
      s.(reqs := s.reqs + [Req(end, n, Accepted, Unstarted, 0, 0, true, 0, 0, [])],
         count := s.count + 1, bytes := s.bytes + n)
    case Route(r) => s.(reqs := s.reqs[r := RouteReq(s, s.reqs[r])])
    case DropRequest(r) => s.(reqs := s.reqs[r := s.reqs[r].(waiter := Failing)])
    case Dispatch(r) =>
      var q := s.reqs[r];
      s.(reqs := s.reqs[r := q.(waiter := Waiting, handler := Running, dispatches := q.dispatches + 1)],
         served := s.served[q.server := s.served[q.server] + 1])
    case HandlerSave(r, state, snap) =>
      var k := s.objs[s.reqs[r].server];
      var sv := Save(s.serial, k, state, snap);
      SaveOn(s, k, sv).(reqs := s.reqs[r := s.reqs[r].(saves := s.reqs[r].saves + [sv])])
    case HandlerReturn(r, n) => s.(reqs := s.reqs[r := s.reqs[r].(handler := Finished(n))])
    case OtherSave(k, state, snap) => SaveOn(s, k, Save(s.serial, k, state, snap))
    case TakeReply(r) => s.(reqs := s.reqs[r := s.reqs[r].(waiter := Checking(true))])
    case Poll(r) =>
      if ServerDead(s, s.reqs[r]) then s.(reqs := s.reqs[r := s.reqs[r].(waiter := Checking(false))]) else s
    case FinalCheck(r, drop) => s.(reqs := s.reqs[r := CheckReq(s, s.reqs[r], drop)])
    case CountBytes(r) =>
      s.(reqs := s.reqs[r := s.reqs[r].(waiter := Counted)], bytes := s.bytes + s.reqs[r].handler.replyLen)
    case Deliver(r) => s.(reqs := s.reqs[r := s.reqs[r].(waiter := Replied(true), replies := s.reqs[r].replies + 1)])
    case Fail(r) => s.(reqs := s.reqs[r := s.reqs[r].(waiter := Replied(false), replies := s.reqs[r].replies + 1)])
    case SetNet(net) => s.(net := net)
    case BeginCrash(i) => s.(ctl := Deleting(i, false))
    case BeginStart(i) => s.(ctl := Deleting(i, true))
    case Drive => DriveOnce(s)
  }

  predicate Init(s: Sys) {
    && s.servers == map[] && s.objs == [] && s.served == [] && s.insts == [] && s.disks == [] && s.saved == map[]
    && s.reqs == [] && s.count == 0 && s.bytes == 0 && s.serial == 0 && s.ctl == Rest
  }

  predicate StepAt(ss: seq<Sys>, acts: seq<Action>, i: nat)
    requires |ss| == |acts| + 1 && i < |acts|
  {
    Enabled(ss[i], acts[i]) && ss[i + 1] == Apply(ss[i], acts[i])
  }

  predicate IsRun(ss: seq<Sys>, acts: seq<Action>) {
    && |ss| == |acts| + 1
    && Init(ss[0])
    && forall i :: 0 <= i < |acts| ==> StepAt(ss, acts, i)
  }

  // ---- requests -----------------------------------------------------------------------

  /** The waiter is bound to report success. */
  predicate Acked(q: Req) {
    q.waiter == Sending || q.waiter == Counted || q.waiter == Replied(true)
  }

  predicate ReqShape(q: Req) {
    && q.dispatches <= 1
    && (q.handler.Unstarted? <==> q.dispatches == 0)
    && (q.handler.Unstarted? ==> q.saves == [])
    && q.replies == (if q.waiter.Replied? then 1 else 0)
    && (q.waiter == Accepted || q.waiter == Routed ==> q.dispatches == 0)
    && (q.waiter == Waiting || q.waiter.Checking? ==> q.dispatches == 1)
    && (Acked(q) || q.waiter == Checking(true) ==> q.handler.Finished?)
  }

  /** A routed request points at a server object of the name it was sent to. */
  predicate ReqRouted(q: Req, objs: seq<nat>, insts: seq<Instance>) {
    q.waiter == Routed || q.dispatches == 1 ==>
      q.server < |objs| && objs[q.server] < |insts| && insts[objs[q.server]].name == q.name
  }

  predicate Kept(disks: seq<Disk>, d: nat, saves: seq<Save>) {
    d < |disks| && forall sv <- saves :: sv in disks[d].lineage
  }

  /** What a handler saved, the instance it ran on saved, and its persister holds it. */
  predicate ReqSaved(q: Req, objs: seq<nat>, insts: seq<Instance>, disks: seq<Disk>) {
    q.dispatches == 1 && q.server < |objs| && objs[q.server] < |insts| ==>
      && Kept(disks, insts[objs[q.server]].disk, q.saves)
      && forall sv <- q.saves :: sv.author == objs[q.server]
  }

  /** What an acknowledged handler saved is in the harness's persister and in every later instance's. */
  predicate ReqSurvives(q: Req, objs: seq<nat>, insts: seq<Instance>, disks: seq<Disk>, saved: map<nat, nat>) {
    Acked(q) && q.server < |objs| ==>
      && q.name in saved && Kept(disks, saved[q.name], q.saves)
      && forall k :: objs[q.server] < k < |insts| && insts[k].name == q.name ==> Kept(disks, insts[k].disk, q.saves)
  }

  predicate ReqInv(q: Req, objs: seq<nat>, insts: seq<Instance>, disks: seq<Disk>, saved: map<nat, nat>) {
    && ReqShape(q) && ReqRouted(q, objs, insts)
    && ReqSaved(q, objs, insts, disks) && ReqSurvives(q, objs, insts, disks, saved)
  }

  predicate ReqsInv(reqs: seq<Req>, objs: seq<nat>, insts: seq<Instance>, disks: seq<Disk>, saved: map<nat, nat>) {
    forall r :: 0 <= r < |reqs| ==> ReqInv(reqs[r], objs, insts, disks, saved)
  }

  // ---- servers, instances and persisters ------------------------------------------------

  /** Between DeleteServer and AddServer the name is not registered. */
  predicate Unregistered(ctl: Ctl, i: nat) {
    !ctl.Rest? && !ctl.Deleting? && ctl.i == i
  }

  /** Stages in which the harness's persister of `ctl.i` belongs to no instance. */
  predicate Exclusive(ctl: Ctl) {
    ctl.Killing? || ctl.ReadingState? || ctl.ReadingSnap? || ctl.Resaving? || ctl.Renewing? || ctl.Making?
  }

  /** `k` is the newest instance of server `i` and uses the harness's persister. */
  predicate Newest(k: nat, i: nat, insts: seq<Instance>, saved: map<nat, nat>) {
    && k < |insts| && insts[k].name == i
    && i in saved && saved[i] == insts[k].disk
    && forall m :: k < m < |insts| ==> insts[m].name != i
  }

  predicate TopoInv(servers: map<nat, nat>, objs: seq<nat>, insts: seq<Instance>, disks: nat,
                    saved: map<nat, nat>, ctl: Ctl)
  {
    && (forall o :: 0 <= o < |objs| ==> objs[o] < |insts|)
    && (forall k :: 0 <= k < |insts| ==> insts[k].disk < disks)
    && (forall i <- saved :: saved[i] < disks)
    && (forall i <- servers ::
          servers[i] < |objs| && Newest(objs[servers[i]], i, insts, saved) && !Unregistered(ctl, i))
    && (Exclusive(ctl) && ctl.i in saved ==> forall k :: 0 <= k < |insts| ==> insts[k].disk != saved[ctl.i])
    && (ctl.ReadingSnap? || ctl.Resaving? || ctl.Making? ==> ctl.i in saved)
    && (ctl.Adding? ==> Newest(ctl.inst, ctl.i, insts, saved))
  }

  /** No two instances share a persister; the harness shares one only with the newest instance of its server. */
  predicate Isolated(insts: seq<Instance>, saved: map<nat, nat>) {
    && (forall k, l :: 0 <= k < l < |insts| ==> insts[k].disk != insts[l].disk)
    && (forall i <- saved, k :: 0 <= k < |insts| && insts[k].disk == saved[i] ==> Newest(k, i, insts, saved))
    && (forall i <- saved, j <- saved :: saved[i] == saved[j] ==> i == j)
  }

  /** The saves come from instances of server `name` below `upto`. */
  predicate SavedBy(lineage: seq<Save>, name: nat, upto: nat, insts: seq<Instance>) {
    forall sv <- lineage :: sv.author < upto && sv.author < |insts| && insts[sv.author].name == name
  }

  predicate LineageInv(insts: seq<Instance>, disks: seq<Disk>, saved: map<nat, nat>) {
    && (forall k :: 0 <= k < |insts| && insts[k].disk < |disks| ==>
          SavedBy(disks[insts[k].disk].lineage, insts[k].name, k + 1, insts))
    && (forall i <- saved :: saved[i] < |disks| ==> SavedBy(disks[saved[i]].lineage, i, |insts|, insts))
  }

  function DataOf(lineage: seq<Save>): P.Stored {
    if lineage == [] then P.Stored([], [])
    else WriteData(DataOf(lineage[..|lineage| - 1]), lineage[|lineage| - 1])
  }

  /** Saves follow each other in time, and none by an older instance follows one by a newer. */
  predicate InOrder(lineage: seq<Save>) {
    forall i, j :: 0 <= i < j < |lineage| ==>
      lineage[i].serial < lineage[j].serial && lineage[i].author <= lineage[j].author
  }

  predicate DiskInv(d: Disk, serial: nat) {
    && d.data == DataOf(d.lineage)
    && (forall i :: 0 <= i < |d.lineage| ==> d.lineage[i].serial < serial)
    && InOrder(d.lineage)
  }

  predicate DisksInv(disks: seq<Disk>, serial: nat, saved: map<nat, nat>, ctl: Ctl) {
    && (forall d :: 0 <= d < |disks| ==> DiskInv(disks[d], serial))
    && (ctl.ReadingSnap? && ctl.i in saved && saved[ctl.i] < |disks| ==>
          disks[saved[ctl.i]].data.raftstate == ctl.state)
    && (ctl.Resaving? && ctl.i in saved && saved[ctl.i] < |disks| ==>
          disks[saved[ctl.i]].data == P.Stored(ctl.state, ctl.snap))
  }

  // ---- accounting -------------------------------------------------------------------------

  function DispatchedTo(reqs: seq<Req>, o: nat): nat {
    if reqs == [] then 0
    else DispatchedTo(reqs[..|reqs| - 1], o) + (var q := reqs[|reqs| - 1]; if q.server == o then q.dispatches else 0)
  }

  /** Argument bytes of a request, and its reply bytes once they were delivered. */
  function TrafficOf(q: Req): nat {
    q.argLen +
    (if (q.waiter == Counted || q.waiter == Replied(true)) && q.handler.Finished? then q.handler.replyLen else 0)
  }

  function Traffic(reqs: seq<Req>): nat {
    if reqs == [] then 0 else Traffic(reqs[..|reqs| - 1]) + TrafficOf(reqs[|reqs| - 1])
  }

  predicate AccountInv(s: Sys) {
    && s.count == |s.reqs|
    && s.bytes == Traffic(s.reqs)
    && |s.served| == |s.objs|
    && (forall o :: 0 <= o < |s.objs| ==> s.served[o] == DispatchedTo(s.reqs, o))
  }

  predicate RequestsInv(s: Sys) {
    ReqsInv(s.reqs, s.objs, s.insts, s.disks, s.saved) && AccountInv(s)
  }

  predicate HarnessInv(servers: map<nat, nat>, objs: seq<nat>, insts: seq<Instance>, disks: seq<Disk>,
                       serial: nat, saved: map<nat, nat>, ctl: Ctl)
  {
    && TopoInv(servers, objs, insts, |disks|, saved, ctl)
    && DisksInv(disks, serial, saved, ctl)
    && Isolated(insts, saved)
    && LineageInv(insts, disks, saved)
  }

  predicate SysInv(s: Sys) {
    RequestsInv(s) && HarnessInv(s.servers, s.objs, s.insts, s.disks, s.serial, s.saved, s.ctl)
  }

  // ---- sums under update --------------------------------------------------------------------

  lemma {:induction false} TrafficUpdate(reqs: seq<Req>, r: nat, q: Req)
    requires r < |reqs|
    ensures Traffic(reqs[r := q]) + TrafficOf(reqs[r]) == Traffic(reqs) + TrafficOf(q)
  {
    var front := reqs[..|reqs| - 1];
    if r == |reqs| - 1 {
      assert reqs[r := q][..|reqs| - 1] == front;
    } else {
      TrafficUpdate(front, r, q);
      assert reqs[r := q][..|reqs| - 1] == front[r := q];
    }
  }

  lemma {:induction false} DispatchedUpdate(reqs: seq<Req>, r: nat, q: Req, o: nat)
    requires r < |reqs|
    ensures DispatchedTo(reqs[r := q], o) + (if reqs[r].server == o then reqs[r].dispatches else 0)
         == DispatchedTo(reqs, o) + (if q.server == o then q.dispatches else 0)
  {
    var front := reqs[..|reqs| - 1];
    if r == |reqs| - 1 {
      assert reqs[r := q][..|reqs| - 1] == front;
    } else {
      DispatchedUpdate(front, r, q, o);
      assert reqs[r := q][..|reqs| - 1] == front[r := q];
    }
  }

  /** A step of one waiter that dispatches nothing. */
  lemma AccountStep(s: Sys, r: nat, q: Req, bytes: nat)
    requires AccountInv(s) && r < |s.reqs|
    requires q.dispatches == s.reqs[r].dispatches && (q.dispatches == 0 || q.server == s.reqs[r].server)
    requires bytes + TrafficOf(s.reqs[r]) == s.bytes + TrafficOf(q)
    ensures AccountInv(s.(reqs := s.reqs[r := q], bytes := bytes))
  {
    TrafficUpdate(s.reqs, r, q);
    forall o | 0 <= o < |s.objs| ensures s.served[o] == DispatchedTo(s.reqs[r := q], o) {
      DispatchedUpdate(s.reqs, r, q, o);
    }
  }

  // ---- growing persisters ---------------------------------------------------------------------

  predicate Grows(disks: seq<Disk>, disks': seq<Disk>) {
    && |disks| <= |disks'|
    && forall d :: 0 <= d < |disks| ==> forall sv <- disks[d].lineage :: sv in disks'[d].lineage
  }

  lemma KeptGrows(disks: seq<Disk>, disks': seq<Disk>, d: nat, saves: seq<Save>)
    requires Grows(disks, disks') && Kept(disks, d, saves)
    ensures Kept(disks', d, saves)
  {}

  lemma ReqGrows(q: Req, objs: seq<nat>, insts: seq<Instance>, disks: seq<Disk>, disks': seq<Disk>,
                 saved: map<nat, nat>)
    requires ReqInv(q, objs, insts, disks, saved) && Grows(disks, disks')
    ensures ReqInv(q, objs, insts, disks', saved)
  {
    if q.dispatches == 1 { KeptGrows(disks, disks', insts[objs[q.server]].disk, q.saves); }
    if Acked(q) {
      KeptGrows(disks, disks', saved[q.name], q.saves);
      forall k | objs[q.server] < k < |insts| && insts[k].name == q.name ensures Kept(disks', insts[k].disk, q.saves) {
        KeptGrows(disks, disks', insts[k].disk, q.saves);
      }
    }
  }

  lemma WriteGrows(disks: seq<Disk>, d: nat, sv: Save)
    requires d < |disks|
    ensures Grows(disks, WriteDisk(disks, d, sv))
  {}

  lemma WriteDiskInv(disks: seq<Disk>, d: nat, sv: Save, serial: nat, saved: map<nat, nat>, ctl: Ctl)
    requires d < |disks| && sv.serial == serial && DisksInv(disks, serial, saved, ctl)
    requires forall t <- disks[d].lineage :: t.author <= sv.author
    requires (ctl.ReadingSnap? || ctl.Resaving?) && ctl.i in saved ==> saved[ctl.i] != d
    ensures DisksInv(WriteDisk(disks, d, sv), serial + 1, saved, ctl)
  {
    var lineage := disks[d].lineage + [sv];
    assert lineage[..|lineage| - 1] == disks[d].lineage;
    assert DiskInv(disks[d], serial);
    forall e | 0 <= e < |disks| ensures DiskInv(WriteDisk(disks, d, sv)[e], serial + 1) {
      assert DiskInv(disks[e], serial);
    }
  }

  /** A save by instance `k` goes to its own persister, which nobody else's lineage depends on. */
  lemma WriteLineage(insts: seq<Instance>, disks: seq<Disk>, saved: map<nat, nat>, k: nat, sv: Save)
    requires Isolated(insts, saved) && LineageInv(insts, disks, saved)
    requires k < |insts| && insts[k].disk < |disks| && sv.author == k
    ensures LineageInv(insts, WriteDisk(disks, insts[k].disk, sv), saved)
  {
    var disks' := WriteDisk(disks, insts[k].disk, sv);
    forall l | 0 <= l < |insts| && insts[l].disk < |disks'|
      ensures SavedBy(disks'[insts[l].disk].lineage, insts[l].name, l + 1, insts)
    {
      assert SavedBy(disks[insts[l].disk].lineage, insts[l].name, l + 1, insts);
    }
    forall i <- saved | saved[i] < |disks'| ensures SavedBy(disks'[saved[i]].lineage, i, |insts|, insts) {
      assert SavedBy(disks[saved[i]].lineage, i, |insts|, insts);
    }
  }
}
