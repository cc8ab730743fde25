/**
 What the checker promises over every run of the stress test.

 A world holds one clock and any number of keys; a run is any interleaving of
 clock ticks and steps on those keys. The theorems are about every world of
 every run.
 */
module CheckerSoundness {
  import opened Options
  import opened Checker
  import opened WriteHistory
  import opened CheckerProtocol

  datatype World = World(now: int, keys: map<string, KeyWorld>)

  datatype Move =
    | Tick(delta: nat)
    | At(key: string, action: Action)

  predicate CanMove(pm: Params, w: World, m: Move) {
    m.At? ==> m.key in w.keys && Enabled(pm, w.keys[m.key], m.action, w.now)
  }

  function After(pm: Params, w: World, m: Move): World
    requires CanMove(pm, w, m)
  {
    match m
    case Tick(delta) => w.(now := w.now + delta)
    case At(key, action) => w.(keys := w.keys[key := Apply(pm, w.keys[key], action, w.now)])
  }

  predicate Init(w: World) {
    forall key <- w.keys :: InitKey(w.keys[key])
  }

  predicate IsRun(pm: Params, ws: seq<World>, moves: seq<Move>) {
    && |ws| == |moves| + 1
    && Init(ws[0])
    && forall i :: 0 <= i < |moves| ==> CanMove(pm, ws[i], moves[i]) && ws[i + 1] == After(pm, ws[i], moves[i])
  }

  ghost predicate WorldInv(pm: Params, w: World) {
    forall key <- w.keys :: KeyInv(pm, w.keys[key], w.now)
  }

  lemma TickKeeps(pm: Params, k: KeyWorld, now: int, now': int)
    requires KeyInv(pm, k, now) && now <= now'
    ensures KeyInv(pm, k, now')
  {
    forall r <- k.copies ensures CopyInv(pm, k.state, k.sets, k.hist, k.copies[r], now') {
      assert CopyInv(pm, k.state, k.sets, k.hist, k.copies[r], now);
    }
    forall id <- k.gets ensures ReadInv(pm, k.state, k.hist, k.gets[id], now') {
      assert ReadInv(pm, k.state, k.hist, k.gets[id], now);
    }
  }

  lemma TickKeepsAll(pm: Params, w: World, delta: nat)
    requires WorldInv(pm, w)
    ensures WorldInv(pm, w.(now := w.now + delta))
  {
    forall key <- w.keys { TickKeeps(pm, w.keys[key], w.now, w.now + delta); }
  }

  /** A step on one key leaves the others alone. */
  lemma KeyChanges(pm: Params, w: World, key: string, k: KeyWorld)
    requires WorldInv(pm, w) && KeyInv(pm, k, w.now)
    ensures WorldInv(pm, w.(keys := w.keys[key := k]))
  {
    var keys := w.keys[key := k];
    forall other <- keys ensures KeyInv(pm, keys[other], w.now) {
      if other != key { assert keys[other] == w.keys[other]; }
    }
  }

  lemma MoveKeeps(pm: Params, w: World, m: Move)
    requires WorldInv(pm, w) && CanMove(pm, w, m)
    ensures WorldInv(pm, After(pm, w, m))
  {
    match m
    case Tick(delta) => TickKeepsAll(pm, w, delta);
    case At(key, action) =>
      StepKeeps(pm, w.keys[key], action, w.now);
      KeyChanges(pm, w, key, Apply(pm, w.keys[key], action, w.now));
  }

  lemma {:induction false} RunInv(pm: Params, ws: seq<World>, moves: seq<Move>, i: nat)
    requires IsRun(pm, ws, moves) && i < |ws|
    ensures WorldInv(pm, ws[i])
  {
    if i == 0 {
      forall key <- ws[0].keys { InitKeyInv(pm, ws[0].keys[key], ws[0].now); }
    } else {
      RunInv(pm, ws, moves, i - 1);
      MoveKeeps(pm, ws[i - 1], moves[i - 1]);
    }
  }

  lemma KeyRunInv(pm: Params, ws: seq<World>, moves: seq<Move>, i: nat, key: string)
    requires IsRun(pm, ws, moves) && i < |ws| && key in ws[i].keys
    ensures KeyInv(pm, ws[i].keys[key], ws[i].now)
  {
    RunInv(pm, ws, moves, i);
  }

  lemma ReadRunInv(pm: Params, ws: seq<World>, moves: seq<Move>, i: nat, key: string, id: nat)
    requires IsRun(pm, ws, moves) && i < |ws| && key in ws[i].keys && id in ws[i].keys[key].gets
    ensures ReadInv(pm, ws[i].keys[key].state, ws[i].keys[key].hist, ws[i].keys[key].gets[id], ws[i].now)
  {
    KeyRunInv(pm, ws, moves, i, key);
  }

  /** Names an observed read in some world of a run. */
  predicate ReadAt(w: World, key: string, id: nat) {
    key in w.keys && id in w.keys[key].gets && w.keys[key].gets[id].Observed?
  }

  predicate SetAt(w: World, key: string, id: nat) {
    key in w.keys && id in w.keys[key].sets && !w.keys[key].sets[id].phase.Timed?
  }

  // ---- no false positives ----------------------------------------------------------

  /** A read that returned what a replica held is never called incorrect. */
  lemma ValueSound(pm: Params, ws: seq<World>, moves: seq<Move>, i: nat, key: string, id: nat)
    requires IsRun(pm, ws, moves) && i < |ws| && ReadAt(ws[i], key, id)
    ensures
      var v := VerdictOn(pm, ws[i].keys[key], id, ws[i].now);
      v.Reported? ==> !v.complaint.WasOverwritten? && !v.complaint.NeverWritten?
  {
    ReadRunInv(pm, ws, moves, i, key, id);
  }

  /** A served value is reported as expired only under a negative tolerance. */
  lemma ExpirySound(pm: Params, ws: seq<World>, moves: seq<Move>, i: nat, key: string, id: nat)
    requires IsRun(pm, ws, moves) && i < |ws| && ReadAt(ws[i], key, id)
    ensures
      var v := VerdictOn(pm, ws[i].keys[key], id, ws[i].now);
      v.Reported? && v.complaint.AlreadyExpired? ==> pm.flags.checkTtl && pm.flags.ttlBuffer < 0 <= pm.ttl
  {
    ReadRunInv(pm, ws, moves, i, key, id);
  }

  /**
   A read that found nothing is reported exactly when it was not disturbed, the
   replica it asked never held the key, and every candidate is still unexpired.
   The replica can only be bare while no write to the key has succeeded.
   */
  lemma NotFoundExact(pm: Params, ws: seq<World>, moves: seq<Move>, i: nat, key: string, id: nat)
    requires IsRun(pm, ws, moves) && i < |ws| && ReadAt(ws[i], key, id) && ws[i].keys[key].gets[id].obs.Missing?
    ensures
      var k := ws[i].keys[key];
      var r := k.gets[id];
      VerdictOn(pm, k, id, ws[i].now).Reported? <==>
        && !Disturbed(k.state, r.initialVersion, r.writesPending)
        && r.obs.stale.None? && NoSuccessYet(k.hist)
        && k.state.values != map[] && AllUnexpired(k.state.values, ws[i].now)
  {
    ReadRunInv(pm, ws, moves, i, key, id);
  }

  /** Together: once some write to the key has succeeded, no read is ever reported. */
  lemma NoFalsePositive(pm: Params, ws: seq<World>, moves: seq<Move>, i: nat, key: string, id: nat)
    requires IsRun(pm, ws, moves) && i < |ws| && ReadAt(ws[i], key, id)
    requires 0 <= pm.flags.ttlBuffer && !NoSuccessYet(ws[i].keys[key].hist)
    ensures !VerdictOn(pm, ws[i].keys[key], id, ws[i].now).Reported?
  {
    ValueSound(pm, ws, moves, i, key, id);
    ExpirySound(pm, ws, moves, i, key, id);
    if ws[i].keys[key].gets[id].obs.Missing? { NotFoundExact(pm, ws, moves, i, key, id); }
  }

  /** The run behind the exception: one failed write that reached nobody, then a read. */
  const FAILED_WRITE_THEN_READ: seq<Action> := [
    StartSet(1, "a"), BeginWrite(1), ReturnSet(1, true), CompleteWrite(1),
    StartGet(2), BeginRead(2), Observe(2, 0)]

  function FailedWriteWorld(pm: Params, i: nat): KeyWorld {
    var entry := StateValue("a", 0, pm.ttl, pm.ttl + pm.flags.ttlBuffer, true);
    var blank := KeyWorld(FRESH, {0}, map[], map[], map[], []);
    var pending := blank.(state := FRESH.(rc := 1), hist := [Begin(1)]);
    var done := blank.(state := KeyState(map["a" := entry], map[], 1, 0), hist := [Begin(1), Done(1, "a", true, 0, 0)]);
    match i
    case 0 => blank
    case 1 => blank.(sets := map[1 := Write("a", 0, Timed, {})])
    case 2 => pending.(sets := map[1 := Write("a", 0, Begun(0, 0), {})])
    case 3 => pending.(sets := map[1 := Write("a", 0, Returned(0, 0, true, 0), {})])
    case 4 => done
    case 5 => done.(gets := map[2 := Started(0)])
    case 6 => done.(gets := map[2 := Watching(0, 1, false, 2)])
    case _ => done.(gets := map[2 := Observed(0, 1, false, 2, Missing(None, 0))])
  }

  lemma FailedWriteSteps(pm: Params, i: nat)
    requires i < 7
    ensures Enabled(pm, FailedWriteWorld(pm, i), FAILED_WRITE_THEN_READ[i], 0)
    ensures Apply(pm, FailedWriteWorld(pm, i), FAILED_WRITE_THEN_READ[i], 0) == FailedWriteWorld(pm, i + 1)
  {
    if i == 3 {
      var k := FailedWriteWorld(pm, 3);
      assert k.sets - {1} == map[];
      assert k.hist + [Done(1, "a", true, 0, 0)] == [Begin(1), Done(1, "a", true, 0, 0)];
    }
  }

  /** So the hypothesis of `NoFalsePositive` is needed: after failed writes alone, a read can be reported. */
  lemma FailedWriteMisleads(pm: Params)
    requires 0 <= pm.ttl
    ensures exists ws: seq<World>, moves: seq<Move> ::
              && IsRun(pm, ws, moves) && |moves| == 7 && ReadAt(ws[7], "k", 2)
              && VerdictOn(pm, ws[7].keys["k"], 2, ws[7].now).Reported?
  {
    var ws := seq(8, i requires 0 <= i < 8 => World(0, map["k" := FailedWriteWorld(pm, i)]));
    var moves := seq(7, i requires 0 <= i < 7 => At("k", FAILED_WRITE_THEN_READ[i]));
    forall i | 0 <= i < 7 ensures CanMove(pm, ws[i], moves[i]) && ws[i + 1] == After(pm, ws[i], moves[i]) {
      FailedWriteSteps(pm, i);
      assert ws[i].keys["k" := FailedWriteWorld(pm, i + 1)] == ws[i + 1].keys;
    }
    assert IsRun(pm, ws, moves);
    FailedWriteReported(pm);
    assert ws[7].keys["k"] == FailedWriteWorld(pm, 7);
  }

  lemma FailedWriteReported(pm: Params)
    requires 0 <= pm.ttl
    ensures VerdictOn(pm, FailedWriteWorld(pm, 7), 2, 0).Reported?
  {
    var k := FailedWriteWorld(pm, 7);
    assert "a" in k.state.values;
    assert AllUnexpired(k.state.values, 0);
  }

  /** The run behind `ExpiryExact`: a write served until its time to live is over, and read at that moment. */
  const WRITE_THEN_LATE_READ: seq<Action> := [
    StartSet(1, "a"), BeginWrite(1), Touch(1, 0), ReturnSet(1, false), CompleteWrite(1),
    StartGet(2), BeginRead(2), Observe(2, 0)]

  /** The clock ticks once, after the first five of these actions. */
  function LateReadMove(pm: Params, i: nat): Move
    requires i < 9 && 0 <= pm.ttl
  {
    if i < 5 then At("k", WRITE_THEN_LATE_READ[i])
    else if i == 5 then Tick(pm.ttl)
    else At("k", WRITE_THEN_LATE_READ[i - 1])
  }

  function LateReadKey(pm: Params, i: nat): KeyWorld {
    var entry := StateValue("a", 0, pm.ttl, pm.ttl + pm.flags.ttlBuffer, false);
    var copy := Copy(1, "a", 0);
    var blank := KeyWorld(FRESH, {0}, map[], map[], map[], []);
    var pending := blank.(state := FRESH.(rc := 1), hist := [Begin(1)]);
    var done := blank.(state := KeyState(map["a" := entry], map[], 1, 0), copies := map[0 := copy],
                       hist := [Begin(1), Done(1, "a", false, 0, 0)]);
    match i
    case 0 => blank
    case 1 => blank.(sets := map[1 := Write("a", 0, Timed, {})])
    case 2 => pending.(sets := map[1 := Write("a", 0, Begun(0, 0), {})])
    case 3 => pending.(sets := map[1 := Write("a", 0, Begun(0, 0), {0})], copies := map[0 := copy])
    case 4 => pending.(sets := map[1 := Write("a", 0, Returned(0, 0, false, 0), {0})], copies := map[0 := copy])
    case 5 => done
    case 6 => done
    case 7 => done.(gets := map[2 := Started(pm.ttl)])
    case 8 => done.(gets := map[2 := Watching(pm.ttl, 1, false, 2)])
    case _ => done.(gets := map[2 := Observed(pm.ttl, 1, false, 2, Found(copy, pm.ttl))])
  }

  function LateReadWorld(pm: Params, i: nat): World {
    World(if i < 6 then 0 else pm.ttl, map["k" := LateReadKey(pm, i)])
  }

  lemma LateReadKeySteps(pm: Params, i: nat)
    requires i < 9 && i != 5 && 0 <= pm.ttl
    ensures
      var a, now := LateReadMove(pm, i).action, LateReadWorld(pm, i).now;
      Enabled(pm, LateReadKey(pm, i), a, now) && Apply(pm, LateReadKey(pm, i), a, now) == LateReadKey(pm, i + 1)
  {
    var touched: set<nat> := {};
    assert touched + {0} == {0};
    if i == 4 {
      var k := LateReadKey(pm, 4);
      assert k.sets - {1} == map[];
      assert k.hist + [Done(1, "a", false, 0, 0)] == [Begin(1), Done(1, "a", false, 0, 0)];
    }
  }

  lemma LateReadSteps(pm: Params, i: nat)
    requires i < 9 && 0 <= pm.ttl
    ensures CanMove(pm, LateReadWorld(pm, i), LateReadMove(pm, i))
    ensures After(pm, LateReadWorld(pm, i), LateReadMove(pm, i)) == LateReadWorld(pm, i + 1)
  {
    if i != 5 {
      LateReadKeySteps(pm, i);
      assert LateReadWorld(pm, i).keys["k" := LateReadKey(pm, i + 1)] == LateReadWorld(pm, i + 1).keys;
    }
  }

  lemma LateReadReported(pm: Params)
    requires pm.flags.checkTtl && pm.flags.ttlBuffer < 0 <= pm.ttl
    ensures VerdictOn(pm, LateReadKey(pm, 9), 2, pm.ttl) == Reported(AlreadyExpired("a"))
  {}

  /** In the i-th world of a run a read is reported as expired. */
  predicate CalledExpired(pm: Params, ws: seq<World>, moves: seq<Move>, i: nat, key: string, id: nat) {
    && IsRun(pm, ws, moves) && i < |ws| && ReadAt(ws[i], key, id)
    && VerdictOn(pm, ws[i].keys[key], id, ws[i].now).Reported?
    && VerdictOn(pm, ws[i].keys[key], id, ws[i].now).complaint.AlreadyExpired?
  }

  ghost predicate MayCallExpired(pm: Params) {
    exists ws: seq<World>, moves: seq<Move>, i: nat, key: string, id: nat :: CalledExpired(pm, ws, moves, i, key, id)
  }

  lemma LateReadRun(pm: Params)
    requires pm.flags.checkTtl && pm.flags.ttlBuffer < 0 <= pm.ttl
    ensures MayCallExpired(pm)
  {
    var ws := seq(10, i requires 0 <= i < 10 => LateReadWorld(pm, i));
    var moves := seq(9, i requires 0 <= i < 9 => LateReadMove(pm, i));
    forall i | 0 <= i < 9 ensures CanMove(pm, ws[i], moves[i]) && ws[i + 1] == After(pm, ws[i], moves[i]) {
      LateReadSteps(pm, i);
    }
    assert IsRun(pm, ws, moves);
    LateReadReported(pm);
    assert ws[9].keys["k"] == LateReadKey(pm, 9);
    assert CalledExpired(pm, ws, moves, 9, "k", 2);
  }

  /** A served value can be reported as expired iff that is checked with a negative tolerance and values live at all. */
  lemma ExpiryExact(pm: Params)
    ensures MayCallExpired(pm) <==> pm.flags.checkTtl && pm.flags.ttlBuffer < 0 <= pm.ttl
  {
    if MayCallExpired(pm) {
      var ws: seq<World>, moves: seq<Move>, i: nat, key: string, id: nat :| CalledExpired(pm, ws, moves, i, key, id);
      ExpirySound(pm, ws, moves, i, key, id);
    }
    if pm.flags.checkTtl && pm.flags.ttlBuffer < 0 <= pm.ttl { LateReadRun(pm); }
  }

  // ---- what is reported ----------------------------------------------------------------

  lemma HistoryStep(pm: Params, w: World, m: Move, key: string)
    requires CanMove(pm, w, m) && key in w.keys
    ensures key in After(pm, w, m).keys && w.keys[key].hist <= After(pm, w, m).keys[key].hist
  {}

  lemma {:induction false} HistoryGrows(pm: Params, ws: seq<World>, moves: seq<Move>, j: nat, i: nat, key: string)
    requires IsRun(pm, ws, moves) && j <= i < |ws| && key in ws[j].keys
    ensures key in ws[i].keys && ws[j].keys[key].hist <= ws[i].keys[key].hist
    decreases i
  {
    if j < i {
      HistoryGrows(pm, ws, moves, j, i - 1, key);
      HistoryStep(pm, ws[i - 1], moves[i - 1], key);
    }
  }

  /** A live value's write and its entry tell the same times. */
  lemma EntryOf(pm: Params, values: map<string, StateValue>, h: History, e: Event)
    requires EntriesInv(pm, values, h) && UniqueValues(h) && values.Keys == Live(h) && LiveWrite(h, e)
    ensures Records(pm, values[e.value], e)
  {
    var d :| d in h && Records(pm, values[e.value], d) && d.value == e.value;
    SameWrite(h, d, e);
  }

  lemma WriteOf(pm: Params, values: map<string, StateValue>, h: History, v: string)
    requires EntriesInv(pm, values, h) && values.Keys == Live(h) && v in values
    ensures exists e :: LiveWrite(h, e) && e.value == v && Records(pm, values[v], e)
  {
    var e :| e in h && Records(pm, values[v], e) && e.value == v;
    assert LiveWrite(h, e);
  }

  /** A successful write of this live value was over, with time to live and tolerance, before `start`. */
  ghost predicate ExpiredBefore(pm: Params, h: History, value: string, start: int) {
    exists e :: LiveWrite(h, e) && e.value == value && !e.failed && e.end + pm.ttl + pm.flags.ttlBuffer < start
  }

  /** There is something to be found, and no live write started so long ago that it may have expired. */
  ghost predicate MustBeFound(pm: Params, h: History, now: int) {
    Live(h) != {} && forall e :: LiveWrite(h, e) ==> now <= e.start + pm.ttl
  }

  lemma ExpiredExact(pm: Params, values: map<string, StateValue>, h: History, value: string, start: int)
    requires EntriesInv(pm, values, h) && UniqueValues(h) && values.Keys == Live(h) && value in values
    ensures ExpiredBefore(pm, h, value, start) <==>
              !values[value].failed && values[value].definitelyExpiredBy < start
  {
    WriteOf(pm, values, h, value);
    forall e | LiveWrite(h, e) && e.value == value ensures Records(pm, values[value], e) {
      EntryOf(pm, values, h, e);
    }
  }

  lemma UnexpiredExact(pm: Params, values: map<string, StateValue>, h: History, now: int)
    requires EntriesInv(pm, values, h) && UniqueValues(h) && values.Keys == Live(h)
    ensures MustBeFound(pm, h, now) <==> values != map[] && AllUnexpired(values, now)
  {
    forall e | LiveWrite(h, e) ensures Records(pm, values[e.value], e) { EntryOf(pm, values, h, e); }
    forall v <- values ensures exists e :: LiveWrite(h, e) && e.value == v && Records(pm, values[v], e) {
      WriteOf(pm, values, h, v);
    }
    assert values != map[] <==> values.Keys != {};
  }

  /** The entries list exactly the live values. */
  lemma UnexpiredLive(pm: Params, values: map<string, StateValue>, h: History)
    requires EntriesInv(pm, values, h) && values.Keys == Live(h)
    ensures
      var entries := set v <- values :: values[v];
      forall v :: v in Live(h) <==> exists x <- entries :: x.value == v
  {
    var entries := set v <- values :: values[v];
    forall v <- values ensures values[v].value == v && values[v] in entries { WriteOf(pm, values, h, v); }
    forall x <- entries ensures x.value in values {
      var v :| v in values && values[v] == x;
    }
  }

  /** What the checker is to answer, given nothing but the history of writes on the key. */
  ghost predicate AnswersFromHistory(pm: Params, h: History, p: nat, value: string, wasFound: bool, start: int,
                                     now: int, err: Option<Complaint>)
    requires p <= |h|
  {
    if !QuietSince(h, p) then err == None
    else if !wasFound then
      && (err.Some? <==> MustBeFound(pm, h, now))
      && (err.Some? ==> err.value.NoValueFound? &&
                        forall v :: v in Live(h) <==> exists x <- err.value.unexpired :: x.value == v)
    else
      && (err == Some(WasOverwritten(value)) <==> value in Dead(h))
      && (err == Some(NeverWritten(value)) <==> !WrittenIn(h, value))
      && (err == Some(AlreadyExpired(value)) <==> pm.flags.checkTtl && ExpiredBefore(pm, h, value, start))
      && (err.None? || err == Some(WasOverwritten(value)) || err == Some(NeverWritten(value))
          || err == Some(AlreadyExpired(value)))
  }

  /** What the verdict is computed from, in terms of the history. */
  ghost predicate StateMatches(pm: Params, s: KeyState, h: History) {
    && WellFormed(h) && UniqueValues(h)
    && s.version == DoneCount(h) && s.rc == |PendingIds(h)|
    && s.values.Keys == Live(h) && s.overwritten.Keys == Dead(h) && Live(h) !! Dead(h)
    && EntriesInv(pm, s.values, h)
  }

  lemma KeyMatches(pm: Params, k: KeyWorld, now: int)
    requires KeyInv(pm, k, now)
    ensures StateMatches(pm, k.state, k.hist)
  {}

  lemma DisturbedExact(pm: Params, s: KeyState, h: History, p: nat)
    requires StateMatches(pm, s, h) && p <= |h|
    ensures Disturbed(s, DoneCount(h[..p]), PendingIds(h[..p]) != {}) <==> !QuietSince(h, p)
  {
    QuietExact(h, p);
  }

  lemma FoundFromHistory(pm: Params, s: KeyState, h: History, p: nat, value: string, start: int, now: int,
                         initialVersion: int, pending: bool)
    requires StateMatches(pm, s, h) && p <= |h| && QuietSince(h, p) && !Disturbed(s, initialVersion, pending)
    ensures AnswersFromHistory(pm, h, p, value, true, start, now,
                               Judge(pm.flags, s, value, true, start, initialVersion, pending, now).Error())
  {
    LiveOrDead(h, value);
    if value in s.values {
      ExpiredExact(pm, s.values, h, value, start);
    } else {
      assert forall e :: LiveWrite(h, e) ==> e.value != value;
    }
  }

  lemma MissingFromHistory(pm: Params, s: KeyState, h: History, p: nat, value: string, start: int, now: int,
                           initialVersion: int, pending: bool)
    requires StateMatches(pm, s, h) && p <= |h| && QuietSince(h, p) && !Disturbed(s, initialVersion, pending)
    ensures AnswersFromHistory(pm, h, p, value, false, start, now,
                               Judge(pm.flags, s, value, false, start, initialVersion, pending, now).Error())
  {
    UnexpiredExact(pm, s.values, h, now);
    UnexpiredLive(pm, s.values, h);
  }

  lemma JudgedFromHistory(pm: Params, s: KeyState, h: History, p: nat, value: string, wasFound: bool, start: int,
                          now: int)
    requires StateMatches(pm, s, h) && p <= |h|
    ensures AnswersFromHistory(pm, h, p, value, wasFound, start, now,
                               Judge(pm.flags, s, value, wasFound, start, DoneCount(h[..p]),
                                     PendingIds(h[..p]) != {}, now).Error())
  {
    DisturbedExact(pm, s, h, p);
    if wasFound && QuietSince(h, p) {
      FoundFromHistory(pm, s, h, p, value, start, now, DoneCount(h[..p]), PendingIds(h[..p]) != {});
    } else if QuietSince(h, p) {
      MissingFromHistory(pm, s, h, p, value, start, now, DoneCount(h[..p]), PendingIds(h[..p]) != {});
    }
  }

  lemma JudgedInRun(pm: Params, ws: seq<World>, moves: seq<Move>, i: nat, key: string, p: nat,
                    value: string, wasFound: bool, start: int)
    requires IsRun(pm, ws, moves) && i < |ws| && key in ws[i].keys && p <= |ws[i].keys[key].hist|
    ensures
      var k := ws[i].keys[key];
      AnswersFromHistory(pm, k.hist, p, value, wasFound, start, ws[i].now,
                         Judge(pm.flags, k.state, value, wasFound, start, DoneCount(k.hist[..p]),
                               PendingIds(k.hist[..p]) != {}, ws[i].now).Error())
  {
    KeyRunInv(pm, ws, moves, i, key);
    KeyMatches(pm, ws[i].keys[key], ws[i].now);
    JudgedFromHistory(pm, ws[i].keys[key].state, ws[i].keys[key].hist, p, value, wasFound, start, ws[i].now);
  }

  /** What BeginRead returns, in terms of the history so far. */
  lemma BeginReadCounts(pm: Params, ws: seq<World>, moves: seq<Move>, j: nat, key: string)
    requires IsRun(pm, ws, moves) && j < |ws| && key in ws[j].keys
    ensures ws[j].keys[key].state.version == DoneCount(ws[j].keys[key].hist)
    ensures ws[j].keys[key].state.rc != 0 <==> PendingIds(ws[j].keys[key].hist) != {}
  {
    KeyRunInv(pm, ws, moves, j, key);
  }

  /**
   Detection, for an arbitrary answer, right or wrong: a Get that called BeginRead in
   world j and hands in its answer in world i is told exactly what the history of
   writes on its key says. In particular an undisturbed read of a value that was
   replaced, or never written, is always reported.
   */
  lemma VerdictExact(pm: Params, ws: seq<World>, moves: seq<Move>, j: nat, i: nat, key: string,
                     value: string, wasFound: bool, start: int)
    requires IsRun(pm, ws, moves) && j <= i < |ws| && key in ws[j].keys && key in ws[i].keys
    ensures
      var before, k := ws[j].keys[key], ws[i].keys[key];
      && |before.hist| <= |k.hist|
      && AnswersFromHistory(pm, k.hist, |before.hist|, value, wasFound, start, ws[i].now,
                            Judge(pm.flags, k.state, value, wasFound, start, before.state.version,
                                  before.state.rc != 0, ws[i].now).Error())
  {
    HistoryGrows(pm, ws, moves, j, i, key);
    BeginReadCounts(pm, ws, moves, j, key);
    var before, k := ws[j].keys[key], ws[i].keys[key];
    assert k.hist[..|before.hist|] == before.hist;
    JudgedInRun(pm, ws, moves, i, key, |before.hist|, value, wasFound, start);
  }

  // ---- the counters are exact --------------------------------------------------------

  /** A write replaces the candidates iff it succeeded and no other write on the key overlapped it. */
  lemma WriteTestExact(pm: Params, ws: seq<World>, moves: seq<Move>, i: nat, key: string, id: nat)
    requires IsRun(pm, ws, moves) && i < |ws| && SetAt(ws[i], key, id)
    ensures
      var k := ws[i].keys[key];
      var p := k.sets[id].phase.pos;
      && p < |k.hist| && k.hist[p] == Begin(id)
      && forall failed :: Unrivalled(k.state, failed, k.sets[id].phase.initialVersion) <==> !failed && Alone(k.hist, p)
  {
    KeyRunInv(pm, ws, moves, i, key);
    var k := ws[i].keys[key];
    assert WriteInv(k.state.version, k.hosts, k.copies.Keys, k.hist, id, k.sets[id], ws[i].now);
    UnrivalledExact(k, id, ws[i].now);
  }

  /** A read is judged iff no write on the key was under way at any moment since BeginRead. */
  lemma ReadTestExact(pm: Params, ws: seq<World>, moves: seq<Move>, i: nat, key: string, id: nat)
    requires IsRun(pm, ws, moves) && i < |ws| && ReadAt(ws[i], key, id)
    ensures
      var k := ws[i].keys[key];
      var r := k.gets[id];
      && r.pos <= |k.hist|
      && (Disturbed(k.state, r.initialVersion, r.writesPending) <==> !QuietSince(k.hist, r.pos))
  {
    KeyRunInv(pm, ws, moves, i, key);
    ReadRunInv(pm, ws, moves, i, key, id);
    QuietExact(ws[i].keys[key].hist, ws[i].keys[key].gets[id].pos);
  }

  /** The checker's state is a function of the history of write intervals. */
  lemma StateIsHistory(pm: Params, ws: seq<World>, moves: seq<Move>, i: nat, key: string)
    requires IsRun(pm, ws, moves) && i < |ws| && key in ws[i].keys
    ensures
      var k := ws[i].keys[key];
      && k.state.version == DoneCount(k.hist)
      && k.state.rc == |PendingIds(k.hist)|
      && k.state.values.Keys == Live(k.hist) && k.state.overwritten.Keys == Dead(k.hist)
      && k.state.values.Keys !! k.state.overwritten.Keys
      && |k.state.values| + |k.state.overwritten| == k.state.version
  {
    RunInv(pm, ws, moves, i);
  }

  predicate OverwrittenAt(w: World, key: string, v: string) {
    key in w.keys && v in w.keys[key].state.overwritten
  }

  lemma MoveKeepsOverwritten(pm: Params, w: World, m: Move, key: string, v: string)
    requires CanMove(pm, w, m) && OverwrittenAt(w, key, v)
    ensures OverwrittenAt(After(pm, w, m), key, v)
  {
    if m.At? && m.key == key { StepKeepsOverwritten(pm, w.keys[key], m.action, w.now); }
  }

  lemma {:induction false} OverwrittenStays(pm: Params, ws: seq<World>, moves: seq<Move>, i: nat, j: nat,
                                            key: string, v: string)
    requires IsRun(pm, ws, moves) && i <= j < |ws| && OverwrittenAt(ws[i], key, v)
    ensures OverwrittenAt(ws[j], key, v)
    decreases j
  {
    if i < j {
      OverwrittenStays(pm, ws, moves, i, j - 1, key, v);
      MoveKeepsOverwritten(pm, ws[j - 1], moves[j - 1], key, v);
    }
  }

  /** A value once overwritten stays overwritten and is never a candidate again. */
  lemma OverwrittenForever(pm: Params, ws: seq<World>, moves: seq<Move>, i: nat, j: nat, key: string, v: string)
    requires IsRun(pm, ws, moves) && i <= j < |ws| && OverwrittenAt(ws[i], key, v)
    ensures OverwrittenAt(ws[j], key, v) && v !in ws[j].keys[key].state.values
  {
    OverwrittenStays(pm, ws, moves, i, j, key, v);
    KeyRunInv(pm, ws, moves, j, key);
  }

  /** What a replica holds is still being written, by a Set of that value, or is a candidate. */
  lemma ReplicasExplained(pm: Params, ws: seq<World>, moves: seq<Move>, i: nat, key: string, host: nat)
    requires IsRun(pm, ws, moves) && i < |ws| && key in ws[i].keys && host in ws[i].keys[key].copies
    ensures
      var k := ws[i].keys[key];
      var c := k.copies[host];
      if c.writer in PendingIds(k.hist) then c.writer in k.sets && k.sets[c.writer].value == c.value
      else c.value in k.state.values
  {
    KeyRunInv(pm, ws, moves, i, key);
    var k := ws[i].keys[key];
    assert CopyInv(pm, k.state, k.sets, k.hist, k.copies[host], ws[i].now);
    assert k.copies[host].writer in k.sets <==> k.copies[host].writer in ActiveIds(k.sets);
  }
}
