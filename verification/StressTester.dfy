/**
 The stress tester driving the checker object.

 `world` is what surrounds the checker: the clock, the Sets and Gets under way
 and the replicas. `Do` lets one of them make its next step, calling the checker
 where the tester calls it and with the arguments the tester passes.
 */
module StressTester {
  import opened Options
  import opened Checker
  import opened WriteHistory
  import opened CheckerProtocol
  import opened CheckerSoundness

  /** The move with which a Get that was answered is checked. */
  predicate Checks(w: World, m: Move) {
    m.At? && m.action.EndGet? && ReadAt(w, m.key, m.action.id)
  }

  lemma RunGrows(pm: Params, ws: seq<World>, moves: seq<Move>, m: Move, w: World)
    requires IsRun(pm, ws, moves) && CanMove(pm, ws[|ws| - 1], m) && w == After(pm, ws[|ws| - 1], m)
    ensures IsRun(pm, ws + [w], moves + [m])
  {}

  lemma ComplaintMeans(pm: Params, ws: seq<World>, moves: seq<Move>, key: string, id: nat)
    requires IsRun(pm, ws, moves) && ReadAt(ws[|ws| - 1], key, id) && 0 <= pm.flags.ttlBuffer
    ensures
      var w := ws[|ws| - 1];
      var v := VerdictOn(pm, w.keys[key], id, w.now);
      v.Reported? ==> v.complaint.NoValueFound? && NoSuccessYet(w.keys[key].hist)
  {
    var last := |ws| - 1;
    ValueSound(pm, ws, moves, last, key, id);
    ExpirySound(pm, ws, moves, last, key, id);
    if !NoSuccessYet(ws[last].keys[key].hist) { NoFalsePositive(pm, ws, moves, last, key, id); }
  }

  /** The answer to an observed Get, as the tester hands it in. */
  lemma ObservedExact(pm: Params, ws: seq<World>, moves: seq<Move>, i: nat, key: string, id: nat)
    requires IsRun(pm, ws, moves) && i < |ws| && ReadAt(ws[i], key, id)
    ensures
      var k := ws[i].keys[key];
      var r := k.gets[id];
      && r.pos <= |k.hist|
      && AnswersFromHistory(pm, k.hist, r.pos, if r.obs.Found? then r.obs.copy.value else "", r.obs.Found?, r.start,
                            ws[i].now, VerdictOn(pm, k, id, ws[i].now).Error())
  {
    ReadRunInv(pm, ws, moves, i, key, id);
    var r := ws[i].keys[key].gets[id];
    JudgedInRun(pm, ws, moves, i, key, r.pos, if r.obs.Found? then r.obs.copy.value else "", r.obs.Found?, r.start);
  }

  /** A Get that was answered is judged from the history of writes on its key; nothing else is complained about. */
  ghost predicate ToldFromHistory(pm: Params, w: World, m: Move, complaint: Option<Complaint>)
    requires CanMove(pm, w, m)
  {
    if m.At? && m.action.EndGet? && w.keys[m.key].gets[m.action.id].Observed? then
      var k := w.keys[m.key];
      var r := k.gets[m.action.id];
      && r.pos <= |k.hist|
      && AnswersFromHistory(pm, k.hist, r.pos, if r.obs.Found? then r.obs.copy.value else "", r.obs.Found?, r.start,
                            w.now, complaint)
    else complaint == None
  }

  lemma ToldExact(pm: Params, ws: seq<World>, moves: seq<Move>, m: Move, complaint: Option<Complaint>)
    requires IsRun(pm, ws, moves) && CanMove(pm, ws[|ws| - 1], m)
    requires
      var w := ws[|ws| - 1];
      complaint == if Checks(w, m) then VerdictOn(pm, w.keys[m.key], m.action.id, w.now).Error() else None
    ensures ToldFromHistory(pm, ws[|ws| - 1], m, complaint)
  {
    if Checks(ws[|ws| - 1], m) { ObservedExact(pm, ws, moves, |ws| - 1, m.key, m.action.id); }
  }

  /** What a Get remembers of BeginRead. */
  lemma WatchingRecorded(pm: Params, k: KeyWorld, id: nat, now: int)
    requires Enabled(pm, k, BeginRead(id), now)
    ensures
      var r := Apply(pm, k, BeginRead(id), now).gets[id];
      r.Watching? && r.initialVersion == k.state.version && (r.writesPending <==> k.state.rc != 0)
  {}

  /** Only BeginWrite and CompleteWrite change a checker's state. */
  lemma OthersKeepState(pm: Params, w: World, m: Move)
    requires CanMove(pm, w, m)
    requires m.At? ==> !m.action.BeginWrite? && !m.action.CompleteWrite?
    ensures After(pm, w, m).keys.Keys == w.keys.Keys
    ensures forall key <- w.keys :: After(pm, w, m).keys[key].state == w.keys[key].state
  {}

  class Tester {
    const pm: Params
    const cc: ConsistencyChecker
    var world: World
    var gets: nat
    var getErrs: nat
    var sets: nat
    var setErrs: nat
    var inconsistencies: nat
    ghost var trace: seq<World>
    ghost var moves: seq<Move>

    ghost predicate Agrees(w: World)
      reads this, cc
    {
      cc.Valid() && forall key <- w.keys :: cc.View(key) == w.keys[key].state
    }

    /** The checker's maps are what the world predicts, and the world is one that a run reaches. */
    ghost predicate Valid()
      reads this, cc
    {
      && cc.flags == pm.flags && pm.flags.checkCorrectness
      && IsRun(pm, trace, moves) && trace[|trace| - 1] == world
      && Agrees(world)
    }

    constructor (pm: Params, world: World)
      requires pm.flags.checkCorrectness && Init(world)
      ensures Valid() && this.pm == pm && this.world == world && inconsistencies == 0
    {
      this.pm := pm;
      cc := new ConsistencyChecker(pm.flags);
      this.world := world;
      gets, getErrs, sets, setErrs, inconsistencies := 0, 0, 0, 0, 0;
      trace, moves := [world], [];
    }

    method StepBegin(key: string, id: nat)
      requires Agrees(world) && cc.flags.checkCorrectness
      requires key in world.keys && id in world.keys[key].sets
      modifies cc
      ensures Agrees(world.(keys := world.keys[key := AfterBegin(world.keys[key], id)]))
    {
      var initialVersion := cc.BeginWrite(key);
      assert AfterBegin(world.keys[key], id).sets[id].phase == Begun(initialVersion, |world.keys[key].hist|);
    }

    method StepComplete(key: string, w: CheckerProtocol.Write, ghost before: KeyState, ghost after: KeyState)
      requires cc.Valid() && cc.flags == pm.flags && pm.flags.checkCorrectness && cc.View(key) == before
      requires w.phase.Returned?
      requires CompleteWriteOp(before, Entry(pm, w, world.now), w.phase.initialVersion) == Some(after)
      modifies cc
      ensures cc.Valid() && cc.View(key) == after
      ensures forall k :: k != key ==> cc.View(k) == old(cc.View(k))
    {
      var panicked := cc.CompleteWrite(key, w.value, w.phase.failed, w.phase.initialVersion,
                                       w.start + pm.ttl, w.phase.end + pm.ttl, world.now);
    }

    /** Where a Set calls the checker. */
    method StepSet(m: Move)
      requires Agrees(world) && cc.flags == pm.flags && pm.flags.checkCorrectness && CanMove(pm, world, m)
      modifies cc
      ensures Agrees(After(pm, world, m))
    {
      if m.At? && m.action.BeginWrite? {
        StepBegin(m.key, m.action.id);
      } else if m.At? && m.action.CompleteWrite? {
        StepComplete(m.key, world.keys[m.key].sets[m.action.id], world.keys[m.key].state,
                     Apply(pm, world.keys[m.key], m.action, world.now).state);
      } else {
        OthersKeepState(pm, world, m);
      }
    }

    /** Where a Get first calls the checker; the pair it gets is the pair the protocol remembers. */
    method StepGet(m: Move) returns (initialVersion: int, writesPending: bool)
      requires Agrees(world) && cc.flags == pm.flags && pm.flags.checkCorrectness && CanMove(pm, world, m)
      ensures m.At? && m.action.BeginRead? ==>
                var r := After(pm, world, m).keys[m.key].gets[m.action.id];
                r.Watching? && r.initialVersion == initialVersion && r.writesPending == writesPending
    {
      initialVersion, writesPending := 0, false;
      if m.At? && m.action.BeginRead? {
        initialVersion, writesPending := cc.BeginRead(m.key);
        WatchingRecorded(pm, world.keys[m.key], m.action.id, world.now);
      }
    }

    /** Counts what a step ends, and checks a Get that was answered. */
    method Count(m: Move, logged: bool) returns (complaint: Option<Complaint>)
      requires Agrees(world) && cc.flags == pm.flags && pm.flags.checkCorrectness && CanMove(pm, world, m)
      modifies this`gets, this`getErrs, this`sets, this`setErrs, this`inconsistencies, cc`checksRun
      ensures Agrees(world)
      ensures complaint == if Checks(world, m)
                           then VerdictOn(pm, world.keys[m.key], m.action.id, world.now).Error() else None
      ensures inconsistencies == old(inconsistencies) + (if complaint.Some? && logged then 1 else 0)
      ensures gets == old(gets) + (if m.At? && m.action.EndGet? then 1 else 0)
      ensures getErrs == old(getErrs) + (if m.At? && m.action.EndGet? && !Checks(world, m) then 1 else 0)
      ensures sets == old(sets) + (if m.At? && m.action.ReturnSet? then 1 else 0)
      ensures setErrs == old(setErrs) + (if m.At? && m.action.ReturnSet? && m.action.failed then 1 else 0)
    {
      complaint := None;
      if m.At? && m.action.ReturnSet? {
        sets := sets + 1;
        if m.action.failed { setErrs := setErrs + 1; }
      }
      if m.At? && m.action.EndGet? {
        gets := gets + 1;
        if !Checks(world, m) {
          getErrs := getErrs + 1;
        } else {
          complaint := CheckGet(m.key, m.action.id);
          if complaint.Some? && logged { inconsistencies := inconsistencies + 1; }
        }
      }
    }

    method CheckGet(key: string, id: nat) returns (complaint: Option<Complaint>)
      requires Agrees(world) && cc.flags == pm.flags && pm.flags.checkCorrectness && ReadAt(world, key, id)
      modifies cc`checksRun
      ensures Agrees(world)
      ensures complaint == VerdictOn(pm, world.keys[key], id, world.now).Error()
    {
      var r := world.keys[key].gets[id];
      var value := if r.obs.Found? then r.obs.copy.value else "";
      complaint := cc.CheckReadCorrect(key, value, r.obs.Found?, r.start, r.initialVersion, r.writesPending, world.now);
    }

    /**
     Any answer to a Get of `key` that called BeginRead in world `j` of the trace, whether
     a replica gave it or not, is judged from the history of writes on the key alone.
     */
    method CheckAnswer(key: string, value: string, wasFound: bool, start: int, initialVersion: int,
                       writesPending: bool, ghost j: nat)
      returns (complaint: Option<Complaint>)
      requires Valid() && key in world.keys && j < |trace| && key in trace[j].keys
      requires initialVersion == trace[j].keys[key].state.version
      requires writesPending == (trace[j].keys[key].state.rc != 0)
      modifies cc`checksRun
      ensures Valid() && |trace[j].keys[key].hist| <= |world.keys[key].hist|
      ensures AnswersFromHistory(pm, world.keys[key].hist, |trace[j].keys[key].hist|, value, wasFound, start,
                                 world.now, complaint)
    {
      VerdictExact(pm, trace, moves, j, |trace| - 1, key, value, wasFound, start);
      complaint := cc.CheckReadCorrect(key, value, wasFound, start, initialVersion, writesPending, world.now);
    }

    /**
     One step of a Set, a Get or the clock. With a tolerance that is not negative,
     the checker complains at most about a missing value, and only on a key to
     which no write has succeeded. `logged` is whether the rate limiter lets the
     complaint through.
     */
    method Do(m: Move, logged: bool) returns (complaint: Option<Complaint>)
      requires Valid() && CanMove(pm, world, m)
      modifies this, cc
      ensures Valid() && world == After(pm, old(world), m)
      ensures ToldFromHistory(pm, old(world), m, complaint)
      ensures complaint.Some? && 0 <= pm.flags.ttlBuffer ==>
                complaint.value.NoValueFound? && NoSuccessYet(old(world).keys[m.key].hist)
      ensures inconsistencies == old(inconsistencies) + (if complaint.Some? && logged then 1 else 0)
      ensures gets == old(gets) + (if m.At? && m.action.EndGet? then 1 else 0)
      ensures getErrs == old(getErrs) + (if m.At? && m.action.EndGet? && !Checks(old(world), m) then 1 else 0)
      ensures sets == old(sets) + (if m.At? && m.action.ReturnSet? then 1 else 0)
      ensures setErrs == old(setErrs) + (if m.At? && m.action.ReturnSet? && m.action.failed then 1 else 0)
    {
      complaint := Count(m, logged);
      ToldExact(pm, trace, moves, m, complaint);
      if Checks(world, m) && 0 <= pm.flags.ttlBuffer { ComplaintMeans(pm, trace, moves, m.key, m.action.id); }
      var initialVersion, writesPending := StepGet(m);
      StepSet(m);
      world := After(pm, world, m);
      RunGrows(pm, trace, moves, m, world);
      trace, moves := trace + [world], moves + [m];
    }
  }
}
