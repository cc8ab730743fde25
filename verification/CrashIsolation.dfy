/**
 Why handing out copies of persisters isolates the instances of a server.

 Instances are never really killed: one that was superseded runs on and saves
 as often as it likes. These theorems say, for every run, that its saves reach
 nobody else, and what a restarted server therefore starts from.
 */
module CrashIsolation {
  import opened Options
  import opened CrashProtocol
  import opened CrashSafety

  /** The instance no longer uses the harness's persister of its server. */
  predicate Superseded(s: Sys, k: nat) {
    && k < |s.insts|
    && (s.insts[k].name in s.saved ==> s.saved[s.insts[k].name] != s.insts[k].disk)
  }

  /** The instance through which a step saves. */
  function Writer(s: Sys, a: Action): Option<nat>
    requires Enabled(s, a)
  {
    match a
    case HandlerSave(r, _, _) => Some(s.objs[s.reqs[r].server])
    case OtherSave(k, _, _) => Some(k)
    case _ => None
  }

  // ---- one step -------------------------------------------------------------------------

  /** A step changes no persister but that of the instance that saves. */
  lemma WritesOwnDisk(s: Sys, a: Action, d: nat)
    requires Enabled(s, a) && d < |s.disks|
    requires Writer(s, a).Some? ==> s.insts[Writer(s, a).value].disk != d
    ensures d < |Apply(s, a).disks| && Apply(s, a).disks[d] == s.disks[d]
  {}

  /** Only a save, and only the harness's three replacements, touch `saved` or what it refers to. */
  lemma SavedStep(s: Sys, a: Action, n: nat)
    requires Enabled(s, a) && n in s.saved
    ensures n in Apply(s, a).saved
    ensures Apply(s, a).saved[n] == s.saved[n] || (Apply(s, a).saved[n] == |s.disks| && a.Drive? && s.ctl.i == n)
  {}

  lemma FirstSaved(s: Sys, a: Action, n: nat)
    requires Enabled(s, a) && n !in s.saved
    ensures n in Apply(s, a).saved ==> Apply(s, a).saved[n] == |s.disks|
  {}

  lemma InstanceStays(s: Sys, a: Action, k: nat)
    requires Enabled(s, a) && k < |s.insts|
    ensures k < |Apply(s, a).insts| && Apply(s, a).insts[k] == s.insts[k]
  {}

  lemma SupersededStep(s: Sys, a: Action, k: nat)
    requires Enabled(s, a) && Superseded(s, k) && s.insts[k].disk < |s.disks|
    ensures Superseded(Apply(s, a), k)
  {
    InstanceStays(s, a, k);
    if s.insts[k].name in s.saved {
      SavedStep(s, a, s.insts[k].name);
    } else {
      FirstSaved(s, a, s.insts[k].name);
    }
  }

  /** The first thing a crash does to the persister supersedes every instance of the server. */
  lemma CopySupersedes(s: Sys, k: nat)
    requires SysInv(s) && s.ctl.Copying? && k < |s.insts| && s.insts[k].name == s.ctl.i && Enabled(s, Drive)
    ensures Superseded(Apply(s, Drive), k)
  {}

  /** The harness replaces a persister by one with the same bytes. */
  lemma DriveKeepsBytes(s: Sys, n: nat)
    requires TopoInv(s.servers, s.objs, s.insts, |s.disks|, s.saved, s.ctl)
    requires DisksInv(s.disks, s.serial, s.saved, s.ctl) && Enabled(s, Drive) && n in s.saved
    ensures n in DriveOnce(s).saved
    ensures s.saved[n] < |s.disks| && DriveOnce(s).saved[n] < |DriveOnce(s).disks|
    ensures DriveOnce(s).disks[DriveOnce(s).saved[n]].data == s.disks[s.saved[n]].data
  {}

  lemma BytesStep(s: Sys, a: Action, n: nat)
    requires SysInv(s) && Enabled(s, a) && n in s.saved
    requires Writer(s, a).None? || !Newest(Writer(s, a).value, n, s.insts, s.saved)
    ensures n in Apply(s, a).saved
    ensures s.saved[n] < |s.disks| && Apply(s, a).saved[n] < |Apply(s, a).disks|
    ensures Apply(s, a).disks[Apply(s, a).saved[n]].data == s.disks[s.saved[n]].data
  {
    if a.Drive? {
      DriveKeepsBytes(s, n);
    } else {
      SavedStep(s, a, n);
      WritesOwnDisk(s, a, s.saved[n]);
    }
  }

  // ---- every run ---------------------------------------------------------------------------

  lemma DiskOf(s: Sys, k: nat)
    requires SysInv(s) && k < |s.insts|
    ensures s.insts[k].disk < |s.disks|
  {}

  lemma SupersededOnce(ss: seq<Sys>, acts: seq<Action>, j: nat, k: nat)
    requires IsRun(ss, acts) && j < |acts| && Superseded(ss[j], k)
    ensures Superseded(ss[j + 1], k)
  {
    RunInv(ss, acts, j);
    DiskOf(ss[j], k);
    RunStep(ss, acts, j);
    SupersededStep(ss[j], acts[j], k);
  }

  lemma {:induction false} SupersededForever(ss: seq<Sys>, acts: seq<Action>, i: nat, j: nat, k: nat)
    requires IsRun(ss, acts) && i <= j < |ss| && Superseded(ss[i], k)
    ensures Superseded(ss[j], k)
    decreases j
  {
    if i < j {
      SupersededForever(ss, acts, i, j - 1, k);
      SupersededOnce(ss, acts, j - 1, k);
    }
  }

  /** From the crash's copy on, every instance that the server had so far is superseded. */
  lemma CrashSupersedes(ss: seq<Sys>, acts: seq<Action>, i: nat, j: nat, k: nat)
    requires IsRun(ss, acts) && i < j < |ss| && acts[i] == Drive && ss[i].ctl.Copying?
    requires k < |ss[i].insts| && ss[i].insts[k].name == ss[i].ctl.i
    ensures Superseded(ss[j], k)
  {
    RunInv(ss, acts, i);
    RunStep(ss, acts, i);
    CopySupersedes(ss[i], k);
    SupersededForever(ss, acts, i + 1, j, k);
  }

  /**
   Once superseded, an instance may save whenever it likes, in handlers or outside:
   no persister of the harness and no persister of another instance ever changes by it.
   */
  lemma SupersededHarmless(ss: seq<Sys>, acts: seq<Action>, i: nat, j: nat, k: nat)
    requires IsRun(ss, acts) && i <= j < |acts| && Superseded(ss[i], k)
    requires Enabled(ss[j], acts[j]) && Writer(ss[j], acts[j]) == Some(k)
    ensures ss[j + 1].saved == ss[j].saved
    ensures forall n <- ss[j].saved ::
              && ss[j].saved[n] < |ss[j].disks| <= |ss[j + 1].disks|
              && ss[j + 1].disks[ss[j].saved[n]] == ss[j].disks[ss[j].saved[n]]
    ensures forall l :: 0 <= l < |ss[j].insts| && l != k ==>
              && ss[j].insts[l].disk < |ss[j].disks| <= |ss[j + 1].disks|
              && ss[j + 1].disks[ss[j].insts[l].disk] == ss[j].disks[ss[j].insts[l].disk]
  {
    SupersededForever(ss, acts, i, j, k);
    RunInv(ss, acts, j);
    RunStep(ss, acts, j);
    var s := ss[j];
    forall n <- s.saved
      ensures s.saved[n] < |s.disks| && s.insts[k].disk != s.saved[n]
    {
      assert s.insts[k].disk == s.saved[n] ==> Newest(k, n, s.insts, s.saved);
    }
    forall l | 0 <= l < |s.insts| && l != k ensures s.insts[l].disk < |s.disks| && s.insts[k].disk != s.insts[l].disk {}
  }

  /**
   The bytes the harness keeps for a server change only when its newest instance
   saves them, and only while that instance is not superseded.
   */
  lemma OnlyNewestChanges(ss: seq<Sys>, acts: seq<Action>, j: nat, n: nat)
    requires IsRun(ss, acts) && j < |acts| && n in ss[j].saved
    ensures Enabled(ss[j], acts[j]) && n in ss[j + 1].saved
    ensures ss[j].saved[n] < |ss[j].disks| && ss[j + 1].saved[n] < |ss[j + 1].disks|
    ensures ss[j + 1].disks[ss[j + 1].saved[n]].data != ss[j].disks[ss[j].saved[n]].data ==>
              Writer(ss[j], acts[j]).Some? && Newest(Writer(ss[j], acts[j]).value, n, ss[j].insts, ss[j].saved)
  {
    RunInv(ss, acts, j);
    RunStep(ss, acts, j);
    var s, a := ss[j], acts[j];
    SavedStep(s, a, n);
    if Writer(s, a).None? || !Newest(Writer(s, a).value, n, s.insts, s.saved) { BytesStep(s, a, n); }
  }

  // ---- what a restarted server starts from -----------------------------------------------------

  /** The latest save of `author` that `d` holds, of state and of snapshot, is what `d` has. */
  predicate BytesOf(d: Disk, author: nat, sv: Save) {
    && d.lineage != []
    && (var last := d.lineage[|d.lineage| - 1];
        d.data.raftstate == last.state && last.author == author && sv.serial <= last.serial)
    && (sv.snap.Some? ==>
          exists t <- d.lineage :: t.author == author && t.snap == Some(d.data.snapshot) && sv.serial <= t.serial)
    && forall t <- d.lineage :: sv.serial <= t.serial ==> t.author == author
  }

  lemma OwnBytes(d: Disk, sv: Save, name: nat, upto: nat, insts: seq<Instance>)
    requires Descends(d, sv) && LaterAuthors(d.lineage, sv, name, upto, insts)
    requires forall k :: sv.author < k < upto && k < |insts| ==> insts[k].name != name
    ensures BytesOf(d, sv.author, sv)
  {
    assert d.lineage[|d.lineage| - 1] in d.lineage;
    if sv.snap.Some? {
      var t := LastSnap(d.lineage).value;
      assert t in d.lineage && t.author == sv.author;
    }
  }

  /**
   The next instance of a server after one that acknowledged a call starts from the
   acknowledged save or a later one by that same instance, both in state and in snapshot.
   */
  lemma RestartedFromOwn(ss: seq<Sys>, acts: seq<Action>, i: nat, j: nat, r: nat, sv: Save)
    requires IsRun(ss, acts) && i <= j < |acts| && InStage(ss[i], r, Replied(true)) && sv in ss[i].reqs[r].saves
    requires acts[j] == Drive && ss[j].ctl == Making(ss[i].reqs[r].name)
    requires forall k :: sv.author < k < |ss[j].insts| ==> ss[j].insts[k].name != ss[i].reqs[r].name
    ensures
      var q := ss[i].reqs[r];
      var k := |ss[j].insts|;
      && q.server < |ss[j].objs| && sv.author == ss[j].objs[q.server]
      && |ss[j + 1].insts| == k + 1 && ss[j + 1].insts[k].name == q.name
      && ss[j + 1].insts[k].disk < |ss[j + 1].disks|
      && BytesOf(ss[j + 1].disks[ss[j + 1].insts[k].disk], sv.author, sv)
  {
    AckedSavesSurvive(ss, acts, i, j, r, sv);
    RunStep(ss, acts, j);
    var q := ss[i].reqs[r];
    OwnBytes(ss[j].disks[ss[j].saved[q.name]], sv, q.name, |ss[j].insts|, ss[j].insts);
  }
}
