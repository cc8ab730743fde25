/**
 Every step keeps the invariant of `CrashProtocol`; what that means for a test.
 */
module CrashSafety {
  import opened Options
  import opened CrashProtocol
  import P = Persister

  // ---- request steps --------------------------------------------------------------------

  /** What the invariant says of one request. */
  lemma ReqOf(s: Sys, r: nat)
    requires RequestsInv(s) && r < |s.reqs|
    ensures ReqInv(s.reqs[r], s.objs, s.insts, s.disks, s.saved) && |s.served| == |s.objs|
  {}

  lemma ShapeOf(s: Sys, r: nat)
    requires SysInv(s) && r < |s.reqs|
    ensures ReqShape(s.reqs[r])
  {
    ReqOf(s, r);
  }

  /** A step that only moves one waiter or handler. */
  lemma ReqStepKeeps(s: Sys, r: nat, q: Req, bytes: nat)
    requires RequestsInv(s) && r < |s.reqs| && ReqInv(q, s.objs, s.insts, s.disks, s.saved)
    requires q.dispatches == s.reqs[r].dispatches && (q.dispatches == 0 || q.server == s.reqs[r].server)
    requires bytes + TrafficOf(s.reqs[r]) == s.bytes + TrafficOf(q)
    ensures RequestsInv(s.(reqs := s.reqs[r := q], bytes := bytes))
  {
    AccountStep(s, r, q, bytes);
  }

  lemma RoutedReq(s: Sys, q: Req)
    requires TopoInv(s.servers, s.objs, s.insts, |s.disks|, s.saved, s.ctl)
    requires ReqInv(q, s.objs, s.insts, s.disks, s.saved) && q.waiter == Accepted
    ensures ReqInv(RouteReq(s, q), s.objs, s.insts, s.disks, s.saved)
  {}

  lemma RouteKeeps(s: Sys, r: nat)
    requires RequestsInv(s) && Enabled(s, Route(r))
    requires TopoInv(s.servers, s.objs, s.insts, |s.disks|, s.saved, s.ctl)
    ensures RequestsInv(Apply(s, Route(r)))
  {
    ReqOf(s, r);
    RoutedReq(s, s.reqs[r]);
    ReqStepKeeps(s, r, RouteReq(s, s.reqs[r]), s.bytes);
  }

  lemma SubmitKeeps(s: Sys, end: string, argLen: nat)
    requires RequestsInv(s)
    ensures RequestsInv(Apply(s, Submit(end, argLen)))
  {
    var q := Req(end, argLen, Accepted, Unstarted, 0, 0, true, 0, 0, []);
    assert (s.reqs + [q])[..|s.reqs|] == s.reqs;
    forall r | 0 <= r < |s.reqs + [q]| ensures ReqInv((s.reqs + [q])[r], s.objs, s.insts, s.disks, s.saved) {
      if r < |s.reqs| { assert ReqInv(s.reqs[r], s.objs, s.insts, s.disks, s.saved); }
    }
  }

  lemma DispatchAccount(s: Sys, r: nat)
    requires AccountInv(s) && Enabled(s, Dispatch(r)) && s.reqs[r].dispatches == 0 && ReqShape(s.reqs[r])
    ensures AccountInv(Apply(s, Dispatch(r)))
  {
    var q := s.reqs[r].(waiter := Waiting, handler := Running, dispatches := 1);
    TrafficUpdate(s.reqs, r, q);
    forall o | 0 <= o < |s.objs| ensures Apply(s, Dispatch(r)).served[o] == DispatchedTo(s.reqs[r := q], o) {
      DispatchedUpdate(s.reqs, r, q, o);
    }
  }

  lemma DispatchedReq(s: Sys, q: Req)
    requires TopoInv(s.servers, s.objs, s.insts, |s.disks|, s.saved, s.ctl)
    requires ReqInv(q, s.objs, s.insts, s.disks, s.saved) && q.waiter == Routed
    ensures ReqInv(q.(waiter := Waiting, handler := Running, dispatches := q.dispatches + 1),
                   s.objs, s.insts, s.disks, s.saved)
  {}

  lemma DispatchKeeps(s: Sys, r: nat)
    requires RequestsInv(s) && Enabled(s, Dispatch(r))
    requires TopoInv(s.servers, s.objs, s.insts, |s.disks|, s.saved, s.ctl)
    ensures RequestsInv(Apply(s, Dispatch(r)))
  {
    ReqOf(s, r);
    DispatchedReq(s, s.reqs[r]);
    DispatchAccount(s, r);
  }

  /**
   The final check lets a reply through only from the newest instance of its server,
   whose persister is the harness's and holds the saves.
   */
  lemma CheckedReqInv(s: Sys, q: Req, drop: bool)
    requires TopoInv(s.servers, s.objs, s.insts, |s.disks|, s.saved, s.ctl)
    requires ReqInv(q, s.objs, s.insts, s.disks, s.saved) && q.waiter.Checking?
    ensures ReqInv(CheckReq(s, q, drop), s.objs, s.insts, s.disks, s.saved)
    ensures Acked(CheckReq(s, q, drop)) ==>
              && q.server < |s.objs| && Newest(s.objs[q.server], q.name, s.insts, s.saved)
              && Kept(s.disks, s.saved[q.name], q.saves)
  {
    if q.waiter.got && !ServerDead(s, q) && !drop {
      assert Newest(s.objs[q.server], q.name, s.insts, s.saved);
    }
  }

  lemma FinalCheckKeeps(s: Sys, r: nat, drop: bool)
    requires RequestsInv(s) && Enabled(s, FinalCheck(r, drop))
    requires TopoInv(s.servers, s.objs, s.insts, |s.disks|, s.saved, s.ctl)
    ensures RequestsInv(Apply(s, FinalCheck(r, drop)))
  {
    ReqOf(s, r);
    CheckedReqInv(s, s.reqs[r], drop);
    ReqStepKeeps(s, r, CheckReq(s, s.reqs[r], drop), s.bytes);
  }

  /** Steps of a waiter or a handler that only its own request matters for. */
  predicate OwnStep(a: Action) {
    a.DropRequest? || a.HandlerReturn? || a.TakeReply? || a.Poll? || a.CountBytes? || a.Deliver? || a.Fail?
  }

  /** What such a step makes of the request. */
  function OwnNext(s: Sys, a: Action): Req
    requires OwnStep(a) && Enabled(s, a)
  {
    var q := s.reqs[a.r];
    match a
    case HandlerReturn(_, n) => q.(handler := Finished(n))
    case TakeReply(_) => q.(waiter := Checking(true))
    case Poll(_) => if ServerDead(s, q) then q.(waiter := Checking(false)) else q
    case CountBytes(_) => q.(waiter := Counted)
    case Deliver(_) => q.(waiter := Replied(true), replies := q.replies + 1)
    case Fail(_) => q.(waiter := Replied(false), replies := q.replies + 1)
    case _ => q.(waiter := Failing)
  }

  lemma OwnNextInv(s: Sys, a: Action)
    requires OwnStep(a) && Enabled(s, a) && ReqInv(s.reqs[a.r], s.objs, s.insts, s.disks, s.saved)
    ensures ReqInv(OwnNext(s, a), s.objs, s.insts, s.disks, s.saved)
    ensures TrafficOf(OwnNext(s, a)) == TrafficOf(s.reqs[a.r]) +
              (if a.CountBytes? then s.reqs[a.r].handler.replyLen else 0)
  {}

  lemma OwnStepApplied(s: Sys, a: Action)
    requires OwnStep(a) && Enabled(s, a)
    ensures Apply(s, a) == s.(reqs := s.reqs[a.r := OwnNext(s, a)],
                              bytes := s.bytes + (if a.CountBytes? then s.reqs[a.r].handler.replyLen else 0))
  {
    if a.Poll? { assert s.reqs[a.r := s.reqs[a.r]] == s.reqs; }
  }

  lemma OwnStepKeeps(s: Sys, a: Action)
    requires RequestsInv(s) && OwnStep(a) && Enabled(s, a)
    ensures RequestsInv(Apply(s, a))
  {
    ReqOf(s, a.r);
    OwnNextInv(s, a);
    OwnStepApplied(s, a);
    ReqStepKeeps(s, a.r, OwnNext(s, a), s.bytes + (if a.CountBytes? then s.reqs[a.r].handler.replyLen else 0));
  }

  // ---- saves ------------------------------------------------------------------------------

  lemma SaveKeeps(s: Sys, k: nat, sv: Save)
    requires SysInv(s) && k < |s.insts| && sv.serial == s.serial && sv.author == k
    ensures s.insts[k].disk < |s.disks| && SysInv(SaveOn(s, k, sv))
  {
    var disks' := WriteDisk(s.disks, s.insts[k].disk, sv);
    WriteGrows(s.disks, s.insts[k].disk, sv);
    assert SavedBy(s.disks[s.insts[k].disk].lineage, s.insts[k].name, k + 1, s.insts);
    WriteDiskInv(s.disks, s.insts[k].disk, sv, s.serial, s.saved, s.ctl);
    WriteLineage(s.insts, s.disks, s.saved, k, sv);
    forall r | 0 <= r < |s.reqs| ensures ReqInv(s.reqs[r], s.objs, s.insts, disks', s.saved) {
      ReqGrows(s.reqs[r], s.objs, s.insts, s.disks, disks', s.saved);
    }
  }

  lemma HandlerSaveKeeps(s: Sys, r: nat, state: Bytes, snap: Option<Bytes>)
    requires SysInv(s) && Enabled(s, HandlerSave(r, state, snap))
    ensures SysInv(Apply(s, HandlerSave(r, state, snap)))
  {
    var k := s.objs[s.reqs[r].server];
    var sv := Save(s.serial, k, state, snap);
    SaveKeeps(s, k, sv);
    var t := SaveOn(s, k, sv);
    ReqOf(s, r);
    ReqOf(t, r);
    SavedReq(t, t.reqs[r], sv);
    ReqStepKeeps(t, r, t.reqs[r].(saves := t.reqs[r].saves + [sv]), t.bytes);
  }

  lemma SavedReq(s: Sys, q: Req, sv: Save)
    requires ReqInv(q, s.objs, s.insts, s.disks, s.saved) && q.handler.Running?
    requires q.server < |s.objs| && s.objs[q.server] < |s.insts| && s.insts[s.objs[q.server]].disk < |s.disks|
    requires sv.author == s.objs[q.server] && sv in s.disks[s.insts[s.objs[q.server]].disk].lineage
    ensures ReqInv(q.(saves := q.saves + [sv]), s.objs, s.insts, s.disks, s.saved)
  {}

  // ---- the driver ----------------------------------------------------------------------------

  /** Stages that change no persister and no instance. */
  predicate LooksOnly(ctl: Ctl) {
    ctl.Deleting? || ctl.Killing? || ctl.ReadingState? || ctl.ReadingSnap?
  }

  lemma LookTopo(s: Sys)
    requires TopoInv(s.servers, s.objs, s.insts, |s.disks|, s.saved, s.ctl) && LooksOnly(s.ctl)
    ensures Enabled(s, Drive)
    ensures
      var s' := DriveOnce(s);
      TopoInv(s'.servers, s.objs, s.insts, |s.disks|, s.saved, s'.ctl)
  {}

  lemma LookDisks(s: Sys)
    requires DisksInv(s.disks, s.serial, s.saved, s.ctl) && LooksOnly(s.ctl) && Enabled(s, Drive)
    ensures DisksInv(s.disks, s.serial, s.saved, DriveOnce(s).ctl)
  {}

  lemma LookKeeps(s: Sys)
    requires SysInv(s) && LooksOnly(s.ctl)
    ensures Enabled(s, Drive) && SysInv(DriveOnce(s))
  {
    LookTopo(s);
    LookDisks(s);
  }

  /** Giving a server another persister with the lineage of its present one. */
  lemma ReplaceSaved(q: Req, s: Sys, i: nat, d: Disk)
    requires ReqInv(q, s.objs, s.insts, s.disks, s.saved)
    requires i in s.saved ==> s.saved[i] < |s.disks| && d.lineage == s.disks[s.saved[i]].lineage
    ensures ReqInv(q, s.objs, s.insts, s.disks + [d], s.saved[i := |s.disks|])
  {
    var disks' := s.disks + [d];
    ReqGrows(q, s.objs, s.insts, s.disks, disks', s.saved);
    if Acked(q) && q.name == i {
      assert Kept(s.disks, s.saved[i], q.saves);
      assert Kept(disks', |s.disks|, q.saves);
    }
  }

  lemma ReplaceLineage(s: Sys, i: nat, d: Disk)
    requires TopoInv(s.servers, s.objs, s.insts, |s.disks|, s.saved, s.ctl)
    requires Isolated(s.insts, s.saved) && LineageInv(s.insts, s.disks, s.saved)
    requires d.lineage == if i in s.saved then s.disks[s.saved[i]].lineage else []
    ensures Isolated(s.insts, s.saved[i := |s.disks|])
    ensures LineageInv(s.insts, s.disks + [d], s.saved[i := |s.disks|])
  {
    var disks', saved' := s.disks + [d], s.saved[i := |s.disks|];
    forall j <- saved', k | 0 <= k < |s.insts| && s.insts[k].disk == saved'[j]
      ensures Newest(k, j, s.insts, saved')
    {
      assert Newest(k, j, s.insts, s.saved);
    }
    forall k | 0 <= k < |s.insts| && s.insts[k].disk < |disks'|
      ensures SavedBy(disks'[s.insts[k].disk].lineage, s.insts[k].name, k + 1, s.insts)
    {
      assert SavedBy(s.disks[s.insts[k].disk].lineage, s.insts[k].name, k + 1, s.insts);
    }
    forall j <- saved' | saved'[j] < |disks'| ensures SavedBy(disks'[saved'[j]].lineage, j, |s.insts|, s.insts) {
      assert j in s.saved ==> SavedBy(s.disks[s.saved[j]].lineage, j, |s.insts|, s.insts);
    }
  }

  lemma ReplaceTopo(s: Sys, i: nat, ctl: Ctl)
    requires TopoInv(s.servers, s.objs, s.insts, |s.disks|, s.saved, s.ctl) && Unregistered(s.ctl, i)
    requires ctl.Killing? || ctl.Renewing? || ctl.Making? || ctl.Rest?
    requires !ctl.Rest? ==> ctl.i == i
    ensures TopoInv(s.servers, s.objs, s.insts, |s.disks| + 1, s.saved[i := |s.disks|], ctl)
  {
    var saved' := s.saved[i := |s.disks|];
    forall j <- s.servers
      ensures s.servers[j] < |s.objs| && Newest(s.objs[s.servers[j]], j, s.insts, saved') && !Unregistered(ctl, j)
    {
      assert Newest(s.objs[s.servers[j]], j, s.insts, s.saved) && !Unregistered(s.ctl, j);
    }
  }

  lemma ReplaceDisks(s: Sys, i: nat, d: Disk, ctl: Ctl)
    requires DisksInv(s.disks, s.serial, s.saved, s.ctl) && DiskInv(d, s.serial)
    requires ctl.Killing? || ctl.Renewing? || ctl.Making? || ctl.Rest?
    ensures DisksInv(s.disks + [d], s.serial, s.saved[i := |s.disks|], ctl)
  {}

  lemma ReplaceKeeps(s: Sys, i: nat, d: Disk, ctl: Ctl)
    requires SysInv(s) && Unregistered(s.ctl, i) && DiskInv(d, s.serial)
    requires d.lineage == if i in s.saved then s.disks[s.saved[i]].lineage else []
    requires ctl.Killing? || ctl.Renewing? || ctl.Making? || ctl.Rest?
    requires !ctl.Rest? ==> ctl.i == i
    ensures SysInv(s.(disks := s.disks + [d], saved := s.saved[i := |s.disks|], ctl := ctl))
  {
    forall r | 0 <= r < |s.reqs| ensures ReqInv(s.reqs[r], s.objs, s.insts, s.disks + [d], s.saved[i := |s.disks|]) {
      ReplaceSaved(s.reqs[r], s, i, d);
    }
    ReplaceTopo(s, i, ctl);
    ReplaceDisks(s, i, d, ctl);
    ReplaceLineage(s, i, d);
  }

  lemma CopyKeeps(s: Sys)
    requires SysInv(s) && (s.ctl.Copying? || s.ctl.Renewing? || s.ctl.Resaving?)
    ensures Enabled(s, Drive) && SysInv(DriveOnce(s))
  {
    var i := s.ctl.i;
    if i in s.saved {
      var prior := s.disks[s.saved[i]];
      assert DiskInv(prior, s.serial);
      ReplaceKeeps(s, i, prior, DriveOnce(s).ctl);
    } else if s.ctl.Renewing? {
      ReplaceKeeps(s, i, Disk(P.Stored([], []), []), Making(i));
    }
  }

  lemma MakeReq(q: Req, s: Sys, i: nat)
    requires ReqInv(q, s.objs, s.insts, s.disks, s.saved) && i in s.saved
    requires forall o :: 0 <= o < |s.objs| ==> s.objs[o] < |s.insts|
    ensures ReqInv(q, s.objs, s.insts + [Instance(i, s.saved[i])], s.disks, s.saved)
  {}

  lemma MakeLineage(s: Sys, i: nat)
    requires Isolated(s.insts, s.saved) && LineageInv(s.insts, s.disks, s.saved)
    requires i in s.saved && s.saved[i] < |s.disks|
    requires forall k :: 0 <= k < |s.insts| ==> s.insts[k].disk != s.saved[i]
    ensures Isolated(s.insts + [Instance(i, s.saved[i])], s.saved)
    ensures LineageInv(s.insts + [Instance(i, s.saved[i])], s.disks, s.saved)
  {
    var insts' := s.insts + [Instance(i, s.saved[i])];
    forall j <- s.saved, k | 0 <= k < |insts'| && insts'[k].disk == s.saved[j]
      ensures Newest(k, j, insts', s.saved)
    {
      if k < |s.insts| { assert Newest(k, j, s.insts, s.saved); }
    }
    forall k | 0 <= k < |insts'| && insts'[k].disk < |s.disks|
      ensures SavedBy(s.disks[insts'[k].disk].lineage, insts'[k].name, k + 1, insts')
    {
      assert k < |s.insts| ==> SavedBy(s.disks[s.insts[k].disk].lineage, s.insts[k].name, k + 1, s.insts);
      assert SavedBy(s.disks[s.saved[i]].lineage, i, |s.insts|, s.insts);
    }
    forall j <- s.saved | s.saved[j] < |s.disks|
      ensures SavedBy(s.disks[s.saved[j]].lineage, j, |insts'|, insts')
    {
      assert SavedBy(s.disks[s.saved[j]].lineage, j, |s.insts|, s.insts);
    }
  }

  lemma MakeTopo(s: Sys)
    requires TopoInv(s.servers, s.objs, s.insts, |s.disks|, s.saved, s.ctl) && s.ctl.Making?
    ensures Enabled(s, Drive)
    ensures TopoInv(s.servers, s.objs, DriveOnce(s).insts, |s.disks|, s.saved, DriveOnce(s).ctl)
  {
    var insts' := s.insts + [Instance(s.ctl.i, s.saved[s.ctl.i])];
    forall j <- s.servers ensures Newest(s.objs[s.servers[j]], j, insts', s.saved) {
      assert Newest(s.objs[s.servers[j]], j, s.insts, s.saved) && !Unregistered(s.ctl, j);
    }
  }

  lemma MakeKeeps(s: Sys)
    requires SysInv(s) && s.ctl.Making?
    ensures Enabled(s, Drive) && SysInv(DriveOnce(s))
  {
    MakeTopo(s);
    MakeLineage(s, s.ctl.i);
    forall r | 0 <= r < |s.reqs| ensures ReqInv(s.reqs[r], s.objs, DriveOnce(s).insts, s.disks, s.saved) {
      MakeReq(s.reqs[r], s, s.ctl.i);
    }
  }

  lemma {:induction false} NeverDispatched(reqs: seq<Req>, o: nat)
    requires forall r :: 0 <= r < |reqs| && reqs[r].server == o ==> reqs[r].dispatches == 0
    ensures DispatchedTo(reqs, o) == 0
  {
    if reqs != [] { NeverDispatched(reqs[..|reqs| - 1], o); }
  }

  lemma AddReq(q: Req, s: Sys)
    requires ReqInv(q, s.objs, s.insts, s.disks, s.saved) && s.ctl.Adding?
    ensures ReqInv(q, s.objs + [s.ctl.inst], s.insts, s.disks, s.saved)
    ensures q.server == |s.objs| ==> q.dispatches == 0
  {}

  lemma AddTopo(s: Sys)
    requires TopoInv(s.servers, s.objs, s.insts, |s.disks|, s.saved, s.ctl) && s.ctl.Adding?
    ensures TopoInv(s.servers[s.ctl.i := |s.objs|], s.objs + [s.ctl.inst], s.insts, |s.disks|, s.saved, Rest)
  {}

  lemma AddAccount(s: Sys)
    requires AccountInv(s) && s.ctl.Adding?
    requires forall r :: 0 <= r < |s.reqs| && s.reqs[r].server == |s.objs| ==> s.reqs[r].dispatches == 0
    ensures AccountInv(DriveOnce(s))
  {
    NeverDispatched(s.reqs, |s.objs|);
  }

  lemma AddKeeps(s: Sys)
    requires SysInv(s) && s.ctl.Adding?
    ensures Enabled(s, Drive) && SysInv(DriveOnce(s))
  {
    forall r | 0 <= r < |s.reqs|
      ensures ReqInv(s.reqs[r], s.objs + [s.ctl.inst], s.insts, s.disks, s.saved)
      ensures s.reqs[r].server == |s.objs| ==> s.reqs[r].dispatches == 0
    {
      AddReq(s.reqs[r], s);
    }
    AddTopo(s);
    AddAccount(s);
  }

  lemma DriveKeeps(s: Sys)
    requires SysInv(s) && Enabled(s, Drive)
    ensures SysInv(DriveOnce(s))
  {
    match s.ctl
    case Copying(_, _) => CopyKeeps(s);
    case Resaving(_, _, _, _) => CopyKeeps(s);
    case Renewing(_) => CopyKeeps(s);
    case Making(_) => MakeKeeps(s);
    case Adding(_, _) => AddKeeps(s);
    case _ => LookKeeps(s);
  }

  lemma RequestFrame(s: Sys, a: Action)
    requires Enabled(s, a) && (OwnStep(a) || a.Submit? || a.Route? || a.Dispatch? || a.FinalCheck?)
    ensures
      var s' := Apply(s, a);
      && s'.servers == s.servers && s'.objs == s.objs && s'.insts == s.insts && s'.disks == s.disks
      && s'.serial == s.serial && s'.saved == s.saved && s'.ctl == s.ctl
  {}

  lemma RequestPart(s: Sys, a: Action)
    requires RequestsInv(s) && TopoInv(s.servers, s.objs, s.insts, |s.disks|, s.saved, s.ctl)
    requires Enabled(s, a) && (OwnStep(a) || a.Submit? || a.Route? || a.Dispatch? || a.FinalCheck?)
    ensures RequestsInv(Apply(s, a))
  {
    match a
    case Submit(end, n) => SubmitKeeps(s, end, n);
    case Route(r) => RouteKeeps(s, r);
    case Dispatch(r) => DispatchKeeps(s, r);
    case FinalCheck(r, drop) => FinalCheckKeeps(s, r, drop);
    case _ => OwnStepKeeps(s, a);
  }

  /** Steps that touch requests only. */
  lemma RequestStepKeeps(s: Sys, a: Action)
    requires SysInv(s)
    requires Enabled(s, a) && (OwnStep(a) || a.Submit? || a.Route? || a.Dispatch? || a.FinalCheck?)
    ensures SysInv(Apply(s, a))
  {
    RequestPart(s, a);
    RequestFrame(s, a);
  }

  lemma SetNetKeeps(s: Sys, net: Net)
    requires SysInv(s)
    ensures SysInv(s.(net := net))
  {}

  lemma BeginDriveKeeps(s: Sys, i: nat, restart: bool)
    requires SysInv(s) && s.ctl.Rest?
    ensures SysInv(s.(ctl := Deleting(i, restart)))
  {}

  lemma ControlStepKeeps(s: Sys, a: Action)
    requires SysInv(s) && Enabled(s, a) && (a.SetNet? || a.BeginCrash? || a.BeginStart? || a.Drive?)
    ensures SysInv(Apply(s, a))
  {
    match a
    case SetNet(net) => SetNetKeeps(s, net);
    case BeginCrash(i) => BeginDriveKeeps(s, i, false);
    case BeginStart(i) => BeginDriveKeeps(s, i, true);
    case Drive => DriveKeeps(s);
  }

  lemma StepKeeps(s: Sys, a: Action)
    requires SysInv(s) && Enabled(s, a)
    ensures SysInv(Apply(s, a))
  {
    if a.OtherSave? {
      SaveKeeps(s, a.inst, Save(s.serial, a.inst, a.state, a.snap));
    } else if a.HandlerSave? {
      HandlerSaveKeeps(s, a.r, a.state, a.snap);
    } else if a.SetNet? || a.BeginCrash? || a.BeginStart? || a.Drive? {
      ControlStepKeeps(s, a);
    } else {
      RequestStepKeeps(s, a);
    }
  }

  lemma RunStep(ss: seq<Sys>, acts: seq<Action>, j: nat)
    requires IsRun(ss, acts) && j < |acts|
    ensures Enabled(ss[j], acts[j]) && ss[j + 1] == Apply(ss[j], acts[j])
  {
    assert StepAt(ss, acts, j);
  }

  lemma {:induction false} RunInv(ss: seq<Sys>, acts: seq<Action>, i: nat)
    requires IsRun(ss, acts) && i < |ss|
    ensures SysInv(ss[i])
  {
    if i > 0 {
      RunInv(ss, acts, i - 1);
      RunStep(ss, acts, i - 1);
      StepKeeps(ss[i - 1], acts[i - 1]);
    }
  }

  // ---- acknowledged saves survive -------------------------------------------------------------

  lemma ReplyFinal(s: Sys, a: Action, r: nat)
    requires Enabled(s, a) && InStage(s, r, Replied(true)) && ReqShape(s.reqs[r])
    ensures r < |Apply(s, a).reqs| && Apply(s, a).reqs[r] == s.reqs[r]
  {}

  lemma ReplyStays(ss: seq<Sys>, acts: seq<Action>, j: nat, r: nat)
    requires IsRun(ss, acts) && j < |acts| && InStage(ss[j], r, Replied(true))
    ensures r < |ss[j + 1].reqs| && ss[j + 1].reqs[r] == ss[j].reqs[r]
  {
    RunInv(ss, acts, j);
    RunStep(ss, acts, j);
    ShapeOf(ss[j], r);
    ReplyFinal(ss[j], acts[j], r);
  }

  lemma {:induction false} RepliesFinal(ss: seq<Sys>, acts: seq<Action>, i: nat, j: nat, r: nat)
    requires IsRun(ss, acts) && i <= j < |ss| && InStage(ss[i], r, Replied(true))
    ensures r < |ss[j].reqs| && ss[j].reqs[r] == ss[i].reqs[r]
    decreases j
  {
    if i < j {
      RepliesFinal(ss, acts, i, j - 1, r);
      ReplyStays(ss, acts, j - 1, r);
    }
  }

  /** The latest save that carried a snapshot. */
  function LastSnap(lineage: seq<Save>): Option<Save> {
    if lineage == [] then None
    else if lineage[|lineage| - 1].snap.Some? then Some(lineage[|lineage| - 1])
    else LastSnap(lineage[..|lineage| - 1])
  }

  /** The snapshot of a lineage is that of its latest save with one, and empty without any. */
  lemma {:induction false} SnapshotData(lineage: seq<Save>)
    ensures match LastSnap(lineage)
            case None => DataOf(lineage).snapshot == [] && forall sv <- lineage :: sv.snap.None?
            case Some(t) => t in lineage && t.snap == Some(DataOf(lineage).snapshot)
    ensures InOrder(lineage) && LastSnap(lineage).Some? ==>
              forall sv <- lineage :: sv.snap.Some? ==> sv.serial <= LastSnap(lineage).value.serial
  {
    if lineage != [] {
      var front, last := lineage[..|lineage| - 1], lineage[|lineage| - 1];
      SnapshotData(front);
      assert lineage == front + [last];
      if last.snap.Some? && InOrder(lineage) {
        forall sv <- lineage ensures sv.serial <= last.serial {
          var p :| 0 <= p < |lineage| && lineage[p] == sv;
        }
      }
    }
  }

  /**
   `d` holds the save `sv`: its raft state is that of `sv` or of a later save, its
   snapshot, if `sv` carried one, likewise, and no save after `sv` is by an
   instance older than the one that made it.
   */
  predicate Descends(d: Disk, sv: Save) {
    && sv in d.lineage
    && (var last := d.lineage[|d.lineage| - 1];
        && d.data.raftstate == last.state
        && sv.serial <= last.serial && (sv.serial == last.serial ==> sv == last))
    && (sv.snap.Some? ==>
          && LastSnap(d.lineage).Some?
          && var t := LastSnap(d.lineage).value;
             t in d.lineage && t.snap == Some(d.data.snapshot) && sv.serial <= t.serial
             && (sv.serial == t.serial ==> sv == t))
    && forall t <- d.lineage :: sv.serial < t.serial ==> sv.author <= t.author
  }

  /** The bytes on a disk are those of its latest saves, which are no older than any save it holds. */
  lemma LatestBytes(d: Disk, serial: nat, sv: Save)
    requires DiskInv(d, serial) && sv in d.lineage
    ensures Descends(d, sv)
  {
    var p :| 0 <= p < |d.lineage| && d.lineage[p] == sv;
    SnapshotData(d.lineage);
    forall t <- d.lineage
      ensures sv.serial < t.serial ==> sv.author <= t.author
      ensures sv.serial == t.serial ==> sv == t
    {
      var q :| 0 <= q < |d.lineage| && d.lineage[q] == t;
    }
  }

  /** From `sv` on, only instances of the server made since then have saved, up to `upto`. */
  predicate LaterAuthors(lineage: seq<Save>, sv: Save, name: nat, upto: nat, insts: seq<Instance>) {
    forall t <- lineage :: sv.serial <= t.serial ==>
      sv.author <= t.author < upto && t.author < |insts| && insts[t.author].name == name
  }

  lemma DescendantOf(d: Disk, serial: nat, sv: Save, name: nat, upto: nat, insts: seq<Instance>)
    requires DiskInv(d, serial) && sv in d.lineage && SavedBy(d.lineage, name, upto, insts)
    ensures Descends(d, sv) && LaterAuthors(d.lineage, sv, name, upto, insts)
  {
    LatestBytes(d, serial, sv);
    forall t <- d.lineage | t.serial == sv.serial ensures t == sv {
      var p :| 0 <= p < |d.lineage| && d.lineage[p] == sv;
      var q :| 0 <= q < |d.lineage| && d.lineage[q] == t;
    }
  }

  /** What the harness's persister of a server holds. */
  lemma SavedDescends(s: Sys, i: nat, saves: seq<Save>)
    requires SysInv(s) && i in s.saved && Kept(s.disks, s.saved[i], saves)
    ensures forall sv <- saves ::
              && Descends(s.disks[s.saved[i]], sv)
              && LaterAuthors(s.disks[s.saved[i]].lineage, sv, i, |s.insts|, s.insts)
  {
    assert DiskInv(s.disks[s.saved[i]], s.serial);
    forall sv <- saves {
      DescendantOf(s.disks[s.saved[i]], s.serial, sv, i, |s.insts|, s.insts);
    }
  }

  /** What the persister of an instance holds. */
  lemma InstanceDescends(s: Sys, k: nat, saves: seq<Save>)
    requires SysInv(s) && k < |s.insts| && Kept(s.disks, s.insts[k].disk, saves)
    ensures forall sv <- saves ::
              && Descends(s.disks[s.insts[k].disk], sv)
              && LaterAuthors(s.disks[s.insts[k].disk].lineage, sv, s.insts[k].name, k + 1, s.insts)
  {
    assert DiskInv(s.disks[s.insts[k].disk], s.serial);
    forall sv <- saves {
      DescendantOf(s.disks[s.insts[k].disk], s.serial, sv, s.insts[k].name, k + 1, s.insts);
    }
  }

  /**
   Once a call has returned true, whatever its handler saved is never lost: at
   every later moment the harness's persister for that server, and the persister
   of every instance made after the one that answered, descends from it. The saves
   since then are, in order, by the answering instance and by newer instances of
   that server up to the one in question, and by nobody else.
   */
  lemma AckedSavesSurvive(ss: seq<Sys>, acts: seq<Action>, i: nat, j: nat, r: nat, sv: Save)
    requires IsRun(ss, acts) && i <= j < |ss| && InStage(ss[i], r, Replied(true)) && sv in ss[i].reqs[r].saves
    ensures
      var q := ss[i].reqs[r];
      var s := ss[j];
      && q.server < |s.objs| && sv.author == s.objs[q.server]
      && q.name in s.saved && s.saved[q.name] < |s.disks| && Descends(s.disks[s.saved[q.name]], sv)
      && LaterAuthors(s.disks[s.saved[q.name]].lineage, sv, q.name, |s.insts|, s.insts)
      && forall k :: s.objs[q.server] < k < |s.insts| && s.insts[k].name == q.name ==>
           && s.insts[k].disk < |s.disks| && Descends(s.disks[s.insts[k].disk], sv)
           && LaterAuthors(s.disks[s.insts[k].disk].lineage, sv, q.name, k + 1, s.insts)
  {
    RepliesFinal(ss, acts, i, j, r);
    RunInv(ss, acts, j);
    var q := ss[i].reqs[r];
    var s := ss[j];
    ReqOf(s, r);
    SavedDescends(s, q.name, q.saves);
    forall k | s.objs[q.server] < k < |s.insts| && s.insts[k].name == q.name
      ensures s.insts[k].disk < |s.disks| && Descends(s.disks[s.insts[k].disk], sv)
      ensures LaterAuthors(s.disks[s.insts[k].disk].lineage, sv, q.name, k + 1, s.insts)
    {
      InstanceDescends(s, k, q.saves);
    }
  }

  // ---- life of a request ----------------------------------------------------------------------

  lemma AckStep(s: Sys, a: Action, r: nat)
    requires Enabled(s, a) && r < |s.reqs| && !Acked(s.reqs[r]) && ReqShape(s.reqs[r])
    requires r < |Apply(s, a).reqs| && Acked(Apply(s, a).reqs[r])
    ensures a == FinalCheck(r, false) && !ServerDead(s, s.reqs[r])
    ensures s.reqs[r].handler.Finished? && s.reqs[r].dispatches == 1
  {}

  /**
   A request turns successful in one step only: the final check, with its handler
   finished after its one dispatch, its end enabled, and the very server object it
   was dispatched to still registered under its name.
   */
  lemma TrueReplyMeans(ss: seq<Sys>, acts: seq<Action>, i: nat, r: nat)
    requires IsRun(ss, acts) && i < |acts| && r < |ss[i].reqs| && !Acked(ss[i].reqs[r])
    requires r < |ss[i + 1].reqs| && Acked(ss[i + 1].reqs[r])
    ensures acts[i] == FinalCheck(r, false) && !ServerDead(ss[i], ss[i].reqs[r])
    ensures ss[i].reqs[r].handler.Finished? && ss[i].reqs[r].dispatches == 1
  {
    RunInv(ss, acts, i);
    RunStep(ss, acts, i);
    ReqOf(ss[i], r);
    AckStep(ss[i], acts[i], r);
  }

  /** Requests, dispatches, replies and bytes are all accounted for at every moment. */
  lemma Conservation(ss: seq<Sys>, acts: seq<Action>, i: nat)
    requires IsRun(ss, acts) && i < |ss|
    ensures
      var s := ss[i];
      && s.count == |s.reqs| && s.bytes == Traffic(s.reqs)
      && |s.served| == |s.objs| && (forall o :: 0 <= o < |s.objs| ==> s.served[o] == DispatchedTo(s.reqs, o))
      && forall r :: 0 <= r < |s.reqs| ==>
           && s.reqs[r].dispatches <= 1 && s.reqs[r].replies == (if s.reqs[r].waiter.Replied? then 1 else 0)
           && (Acked(s.reqs[r]) ==> s.reqs[r].dispatches == 1 && s.reqs[r].handler.Finished?)
  {
    RunInv(ss, acts, i);
    forall r | 0 <= r < |ss[i].reqs| ensures ReqShape(ss[i].reqs[r]) {
      assert ReqInv(ss[i].reqs[r], ss[i].objs, ss[i].insts, ss[i].disks, ss[i].saved);
    }
  }

  /** The end is enabled and the name still stands for the server object the request was routed to. */
  predicate Alive(s: Sys, q: Req) {
    && q.end in s.net.enabled && s.net.enabled[q.end]
    && q.name in s.servers && s.servers[q.name] == q.server
  }

  /**
   What each step of a request decides, both ways. In particular a reply that has
   arrived goes out whenever the server is alive and the network does not drop it,
   which a reliable network never does.
   */
  lemma RequestLaws(ss: seq<Sys>, acts: seq<Action>, i: nat)
    requires IsRun(ss, acts) && i < |acts|
    ensures
      var s, s' := ss[i], ss[i + 1];
      match acts[i]
      case Submit(end, n) =>
        && |s'.reqs| == |s.reqs| + 1 && s'.count == s.count + 1 && s'.bytes == s.bytes + n
        && s'.reqs[|s.reqs|].waiter == Accepted && s'.reqs[|s.reqs|].end == end
      case Route(r) =>
        && r < |s.reqs| == |s'.reqs|
        && var q, q' := s.reqs[r], s'.reqs[r];
           if q.end in s.net.enabled && s.net.enabled[q.end] && q.end in s.net.connections
              && s.net.connections[q.end] in s.servers
           then q'.waiter == Routed && q'.name == s.net.connections[q.end] && Alive(s, q')
                && q'.reliable == s.net.reliable && q'.end == q.end
           else q'.waiter == Failing
      case Dispatch(r) =>
        && r < |s.reqs| == |s'.reqs| && s.reqs[r].server < |s.served| == |s'.served|
        && s'.reqs[r].waiter == Waiting && s'.reqs[r].handler == Running
        && s'.served[s.reqs[r].server] == s.served[s.reqs[r].server] + 1
      case TakeReply(r) => r < |s'.reqs| && s'.reqs[r].waiter == Checking(true)
      case Poll(r) =>
        && r < |s.reqs| == |s'.reqs|
        && s'.reqs[r].waiter == if Alive(s, s.reqs[r]) then Waiting else Checking(false)
      case FinalCheck(r, drop) =>
        && r < |s.reqs| == |s'.reqs| && (s.reqs[r].reliable ==> !drop)
        && s'.reqs[r].waiter ==
             if s.reqs[r].waiter == Checking(true) && Alive(s, s.reqs[r]) && !drop then Sending else Failing
      case CountBytes(r) =>
        && r < |s.reqs| == |s'.reqs| && s'.reqs[r].waiter == Counted
        && s.reqs[r].handler.Finished? && s'.bytes == s.bytes + s.reqs[r].handler.replyLen
      case Deliver(r) => r < |s'.reqs| && s'.reqs[r].waiter == Replied(true)
      case Fail(r) => r < |s'.reqs| && s'.reqs[r].waiter == Replied(false)
      case _ => true
  {
    RunStep(ss, acts, i);
  }

  /** Whether the driver is on its way to a new instance. */
  predicate Restarts(ctl: Ctl) {
    match ctl
    case Rest => false
    case Deleting(_, restart) => restart
    case Copying(_, restart) => restart
    case Killing(_, restart) => restart
    case ReadingState(_, restart) => restart
    case ReadingSnap(_, restart, _) => restart
    case Resaving(_, restart, _, _) => restart
    case _ => true
  }

  /**
   What the driver gets done: it works on one server until it rests; a crash ends
   without an instance registered, a restart with the one it has made last.
   */
  lemma DriverLaws(ss: seq<Sys>, acts: seq<Action>, i: nat)
    requires IsRun(ss, acts) && i < |acts|
    ensures
      var s, s' := ss[i], ss[i + 1];
      match acts[i]
      case BeginCrash(n) => s.ctl == Rest && s'.ctl == Deleting(n, false)
      case BeginStart(n) => s.ctl == Rest && s'.ctl == Deleting(n, true)
      case Drive =>
        && !s.ctl.Rest?
        && (s'.ctl.Rest? || (s'.ctl.i == s.ctl.i && (Restarts(s'.ctl) <==> Restarts(s.ctl))))
        && (!s.ctl.Adding? ==> s.ctl.i !in s'.servers)
        && (s.ctl.Making? ==>
              && s.ctl.i in s.saved && s'.ctl == Adding(s.ctl.i, |s.insts|)
              && s'.insts == s.insts + [Instance(s.ctl.i, s.saved[s.ctl.i])])
        && (s'.ctl.Rest? ==>
              if Restarts(s.ctl) then
                && s.ctl.Adding? && s.ctl.i in s'.servers && s'.servers[s.ctl.i] < |s'.objs|
                && s'.objs[s'.servers[s.ctl.i]] == s.ctl.inst && s'.servers[s.ctl.i] == |s.objs|
              else s.ctl.i !in s'.servers)
      case _ => s'.ctl == s.ctl && s'.servers == s.servers && s'.insts == s.insts && s'.objs == s.objs
  {
    RunStep(ss, acts, i);
    RunInv(ss, acts, i);
    if acts[i].Drive? && !ss[i].ctl.Deleting? { Unserved(ss[i]); }
  }

  /** While the driver works on a server past the deletion, nobody is registered under its name. */
  lemma Unserved(s: Sys)
    requires SysInv(s) && !s.ctl.Rest? && !s.ctl.Deleting?
    ensures s.ctl.i !in s.servers
  {}

  /** Sections of its goroutine a request still has to pass. */
  function Remaining(w: Waiter): nat {
    match w
    case Accepted => 6
    case Routed => 5
    case Waiting => 4
    case Checking(_) => 3
    case Sending => 2
    case Counted => 1
    case Failing => 1
    case Replied(_) => 0
  }

  function NextFor(s: Sys, r: nat): Action
    requires r < |s.reqs|
  {
    match s.reqs[r].waiter
    case Accepted => Route(r)
    case Routed => Dispatch(r)
    case Waiting => TakeReply(r)
    case Checking(_) => FinalCheck(r, false)
    case Sending => CountBytes(r)
    case Counted => Deliver(r)
    case _ => Fail(r)
  }

  lemma NextStep(s: Sys, r: nat)
    requires r < |s.reqs| && ReqInv(s.reqs[r], s.objs, s.insts, s.disks, s.saved) && |s.served| == |s.objs|
    requires !s.reqs[r].waiter.Replied? && !(s.reqs[r].waiter.Waiting? && s.reqs[r].handler.Running?)
    ensures Enabled(s, NextFor(s, r))
    ensures Remaining(Apply(s, NextFor(s, r)).reqs[r].waiter) < Remaining(s.reqs[r].waiter)
  {}

  /** A request waits for nothing but its own handler, so it gets its reply. */
  lemma NeverStuck(ss: seq<Sys>, acts: seq<Action>, i: nat, r: nat)
    requires IsRun(ss, acts) && i < |ss| && r < |ss[i].reqs|
    requires !ss[i].reqs[r].waiter.Replied? && !(ss[i].reqs[r].waiter.Waiting? && ss[i].reqs[r].handler.Running?)
    ensures Enabled(ss[i], NextFor(ss[i], r))
    ensures Remaining(Apply(ss[i], NextFor(ss[i], r)).reqs[r].waiter) < Remaining(ss[i].reqs[r].waiter)
  {
    RunInv(ss, acts, i);
    ReqOf(ss[i], r);
    NextStep(ss[i], r);
  }
}
