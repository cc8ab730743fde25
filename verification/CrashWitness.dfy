/**
 A run to which the theorems about crashes apply: on a reliable network a server
 starts, answers a call whose handler saved, is restarted, and its first instance
 goes on saving.
 */
module CrashWitness {
  import opened Options
  import opened CrashProtocol
  import opened CrashSafety
  import opened CrashIsolation
  import P = Persister

  const RUN: seq<Action> := [
    BeginStart(0), Drive, Drive, Drive, Drive, Drive, Drive, Drive,
    Submit("e", 1), Route(0), Dispatch(0), HandlerSave(0, [7], Some([8])), HandlerReturn(0, 2), TakeReply(0),
    FinalCheck(0, false), CountBytes(0), Deliver(0),
    BeginStart(0), Drive, Drive, Drive, Drive, Drive, Drive, Drive, Drive, Drive,
    OtherSave(0, [9], None)]

  const SAVED: Save := Save(0, 0, [7], Some([8]))

  const BLANK: Disk := Disk(P.Stored([], []), [])

  const KEPT: Disk := Disk(P.Stored([7], [8]), [SAVED])

  const SCRIBBLED: Disk := Disk(P.Stored([9], [8]), [SAVED, Save(1, 0, [9], None)])

  /** Up to the first server: nothing but the harness at work. */
  function Starting(i: nat): Sys {
    var s := Sys(Net(map["e" := true], map["e" := 0], true), map[], [], [], [], [], map[], [], 0, 0, 0, Rest);
    match i
    case 0 => s
    case 1 => s.(ctl := Deleting(0, true))
    case 2 => s.(ctl := Copying(0, true))
    case 3 => s.(ctl := Killing(0, true))
    case 4 => s.(ctl := ReadingState(0, true))
    case 5 => s.(ctl := Renewing(0))
    case 6 => s.(disks := [BLANK], saved := map[0 := 0], ctl := Making(0))
    case 7 => s.(disks := [BLANK], saved := map[0 := 0], insts := [Instance(0, 0)], ctl := Adding(0, 0))
    case _ =>
      s.(disks := [BLANK], saved := map[0 := 0], insts := [Instance(0, 0)],
         objs := [0], served := [0], servers := map[0 := 0])
  }

  /** The call. */
  function Calling(i: nat): Sys {
    var s := Starting(8).(count := 1, bytes := 1);
    var q := Req("e", 1, Accepted, Unstarted, 0, 0, true, 0, 0, []);
    var t := s.(disks := [KEPT], served := [1], serial := 1);
    var run := q.(waiter := Waiting, handler := Running, dispatches := 1);
    var done := run.(saves := [SAVED], handler := Finished(2));
    match i
    case 0 => Starting(8)
    case 1 => s.(reqs := [q])
    case 2 => s.(reqs := [q.(waiter := Routed)])
    case 3 => s.(served := [1], reqs := [run])
    case 4 => t.(reqs := [run.(saves := [SAVED])])
    case 5 => t.(reqs := [done])
    case 6 => t.(reqs := [done.(waiter := Checking(true))])
    case 7 => t.(reqs := [done.(waiter := Sending)])
    case 8 => t.(reqs := [done.(waiter := Counted)], bytes := 3)
    case _ => t.(reqs := [done.(waiter := Replied(true), replies := 1)], bytes := 3)
  }

  /** The restart, and a save by the instance it superseded. */
  function Restarting(i: nat): Sys {
    var s := Calling(9);
    var u := s.(servers := map[]);
    var v := u.(disks := [KEPT, KEPT], saved := map[0 := 1]);
    var w := u.(disks := [KEPT, KEPT, KEPT, KEPT], saved := map[0 := 3]);
    var made := w.(insts := [Instance(0, 0), Instance(0, 3)]);
    var done := made.(objs := [0, 1], served := [1, 0], servers := map[0 := 1]);
    match i
    case 0 => s
    case 1 => s.(ctl := Deleting(0, true))
    case 2 => u.(ctl := Copying(0, true))
    case 3 => v.(ctl := Killing(0, true))
    case 4 => v.(ctl := ReadingState(0, true))
    case 5 => v.(ctl := ReadingSnap(0, true, [7]))
    case 6 => v.(ctl := Resaving(0, true, [7], [8]))
    case 7 => u.(disks := [KEPT, KEPT, KEPT], saved := map[0 := 2], ctl := Renewing(0))
    case 8 => w.(ctl := Making(0))
    case 9 => made.(ctl := Adding(0, 1))
    case 10 => done
    case _ => done.(disks := [SCRIBBLED, KEPT, KEPT, KEPT], serial := 2)
  }

  function State(i: nat): Sys {
    if i < 8 then Starting(i) else if i < 17 then Calling(i - 8) else Restarting(i - 17)
  }

  lemma StartingFrom0(i: nat)
    requires 0 <= i < 4
    ensures Enabled(Starting(i), RUN[i]) && Apply(Starting(i), RUN[i]) == Starting(i + 1)
  {}

  lemma StartingFrom4(i: nat)
    requires 4 <= i < 8
    ensures Enabled(Starting(i), RUN[i]) && Apply(Starting(i), RUN[i]) == Starting(i + 1)
  {}

  lemma CallingFrom0(i: nat)
    requires 0 <= i < 3
    ensures Enabled(Calling(i), RUN[i + 8]) && Apply(Calling(i), RUN[i + 8]) == Calling(i + 1)
  {}

  lemma CallingFrom3(i: nat)
    requires 3 <= i < 6
    ensures Enabled(Calling(i), RUN[i + 8]) && Apply(Calling(i), RUN[i + 8]) == Calling(i + 1)
  {
    var none: seq<Save> := [];
    assert none + [SAVED] == [SAVED];
    assert [BLANK][0 := KEPT] == [KEPT];
  }

  lemma CallingFrom6(i: nat)
    requires 6 <= i < 9
    ensures Enabled(Calling(i), RUN[i + 8]) && Apply(Calling(i), RUN[i + 8]) == Calling(i + 1)
  {}

  lemma RestartingFrom0(i: nat)
    requires 0 <= i < 3
    ensures Enabled(Restarting(i), RUN[i + 17]) && Apply(Restarting(i), RUN[i + 17]) == Restarting(i + 1)
  {
    var servers: map<nat, nat> := map[0 := 0];
    assert servers - {0} == map[];
  }

  lemma RestartingFrom3(i: nat)
    requires 3 <= i < 6
    ensures Enabled(Restarting(i), RUN[i + 17]) && Apply(Restarting(i), RUN[i + 17]) == Restarting(i + 1)
  {}

  lemma RestartingFrom6(i: nat)
    requires 6 <= i < 9
    ensures Enabled(Restarting(i), RUN[i + 17]) && Apply(Restarting(i), RUN[i + 17]) == Restarting(i + 1)
  {}

  lemma RestartingAt9()
    ensures Enabled(Restarting(9), RUN[26]) && Apply(Restarting(9), RUN[26]) == Restarting(10)
  {
    assert [0] + [1] == [0, 1];
  }

  lemma RestartingAt10()
    ensures Enabled(Restarting(10), RUN[27]) && Apply(Restarting(10), RUN[27]) == Restarting(11)
  {
    assert [SAVED] + [Save(1, 0, [9], None)] == SCRIBBLED.lineage;
    assert [KEPT, KEPT, KEPT, KEPT][0 := SCRIBBLED] == [SCRIBBLED, KEPT, KEPT, KEPT];
  }

  lemma Steps(i: nat)
    requires i < 28
    ensures Enabled(State(i), RUN[i]) && Apply(State(i), RUN[i]) == State(i + 1)
  {
    if i < 4 { StartingFrom0(i); }
    else if i < 8 { StartingFrom4(i); }
    else if i < 11 { CallingFrom0(i - 8); }
    else if i < 14 { CallingFrom3(i - 8); }
    else if i < 17 { CallingFrom6(i - 8); }
    else if i < 20 { RestartingFrom0(i - 17); }
    else if i < 23 { RestartingFrom3(i - 17); }
    else if i < 26 { RestartingFrom6(i - 17); }
    else if i == 26 { RestartingAt9(); }
    else { RestartingAt10(); }
  }

  /**
   A call can return true, with its save kept: the restarted instance has it, and a
   later save by the superseded one reaches neither that instance nor the harness.
   */
  lemma CallSucceeds()
    ensures exists ss: seq<Sys>, acts: seq<Action> ::
              && IsRun(ss, acts) && |acts| == 28
              && InStage(ss[17], 0, Replied(true)) && SAVED in ss[17].reqs[0].saves
              && Superseded(ss[27], 0)
              && ss[28].insts == [Instance(0, 0), Instance(0, 3)] && ss[28].saved == map[0 := 3]
              && ss[28].disks == [SCRIBBLED, KEPT, KEPT, KEPT]
  {
    var ss := seq(29, i requires 0 <= i < 29 => State(i));
    forall i | 0 <= i < 28 ensures StepAt(ss, RUN, i) { Steps(i); }
    assert IsRun(ss, RUN);
    assert ss[17] == Calling(9) && ss[27] == Restarting(10) && ss[28] == Restarting(11);
  }
}
