/**
 The stress tester, the checker and the replicas as one state machine.

 A Set takes its start time, calls BeginWrite, touches replicas one at a time,
 returns, takes its end time and calls CompleteWrite; a Get takes its start
 time, calls BeginRead, gets one replica and calls CheckReadCorrect. Steps of
 any number of Sets and Gets, on any keys, interleave freely with the clock.
 */
module CheckerProtocol {
  import opened Options
  import opened Checker
  import opened WriteHistory

  datatype Params = Params(flags: Flags, ttl: int)

  /** What a replica stores: who wrote it and when it took effect there. */
  datatype Copy = Copy(writer: nat, value: string, effectAt: int)

  datatype WritePhase =
    | Timed
    | Begun(initialVersion: int, pos: nat)
    | Returned(initialVersion: int, pos: nat, failed: bool, end: int)

  datatype Write = Write(value: string, start: int, phase: WritePhase, touched: set<nat>)

  /** A replica serves its copy up to the time to live; otherwise nothing is found. */
  datatype Observation =
    | Found(copy: Copy, at: int)
    | Missing(stale: Option<Copy>, at: int)

  datatype Read =
    | Started(start: int)
    | Watching(start: int, initialVersion: int, writesPending: bool, pos: nat)
    | Observed(start: int, initialVersion: int, writesPending: bool, pos: nat, obs: Observation)

  datatype KeyWorld = KeyWorld(
    state: KeyState, hosts: set<nat>, copies: map<nat, Copy>,
    sets: map<nat, Write>, gets: map<nat, Read>, hist: History)

  datatype Action =
    | StartSet(id: nat, value: string)
    | BeginWrite(id: nat)
    | Touch(id: nat, host: nat)
    | ReturnSet(id: nat, failed: bool)
    | CompleteWrite(id: nat)
    | StartGet(id: nat)
    | BeginRead(id: nat)
    | Observe(id: nat, host: nat)
    | EndGet(id: nat)

  function Entry(pm: Params, w: Write, now: int): StateValue
    requires w.phase.Returned?
  {
    StateValue(w.value, now, w.start + pm.ttl, w.phase.end + pm.ttl + pm.flags.ttlBuffer, w.phase.failed)
  }

  function See(pm: Params, k: KeyWorld, host: nat, now: int): Observation {
    if host in k.copies then
      if now <= k.copies[host].effectAt + pm.ttl then Found(k.copies[host], now)
      else Missing(Some(k.copies[host]), now)
    else Missing(None, now)
  }

  /**
   A Set touches replicas only after BeginWrite; a successful one has touched all
   of them when it returns, a failed one may go on until CompleteWrite.
   CompleteWrite is enabled only where it does not panic.
   */
  predicate Enabled(pm: Params, k: KeyWorld, a: Action, now: int) {
    match a
    case StartSet(id, _) => id !in k.sets && !BeganIn(k.hist, id)
    case BeginWrite(id) => id in k.sets && k.sets[id].phase.Timed?
    case Touch(id, host) =>
      && id in k.sets && host in k.hosts
      && (k.sets[id].phase.Begun? || (k.sets[id].phase.Returned? && k.sets[id].phase.failed))
    case ReturnSet(id, failed) =>
      && id in k.sets && k.sets[id].phase.Begun?
      && (!failed ==> k.sets[id].touched == k.hosts)
    case CompleteWrite(id) =>
      && id in k.sets && k.sets[id].phase.Returned?
      && CompleteWriteOp(k.state, Entry(pm, k.sets[id], now), k.sets[id].phase.initialVersion).Some?
    case StartGet(id) => id !in k.gets
    case BeginRead(id) => id in k.gets && k.gets[id].Started?
    case Observe(id, host) => id in k.gets && k.gets[id].Watching? && host in k.hosts
    case EndGet(id) => id in k.gets && !k.gets[id].Started?
  }

  function AfterBegin(k: KeyWorld, id: nat): KeyWorld
    requires id in k.sets
  {
    k.(state := BeginWriteOp(k.state),
       sets := k.sets[id := k.sets[id].(phase := Begun(k.state.version, |k.hist|))],
       hist := k.hist + [Begin(id)])
  }

  function AfterTouch(k: KeyWorld, id: nat, host: nat, now: int): KeyWorld
    requires id in k.sets
  {
    k.(copies := k.copies[host := Copy(id, k.sets[id].value, now)],
       sets := k.sets[id := k.sets[id].(touched := k.sets[id].touched + {host})])
  }

  function AfterReturn(k: KeyWorld, id: nat, failed: bool, now: int): KeyWorld
    requires id in k.sets && k.sets[id].phase.Begun?
  {
    var w := k.sets[id];
    k.(sets := k.sets[id := w.(phase := Returned(w.phase.initialVersion, w.phase.pos, failed, now))])
  }

  function DoneEvent(id: nat, w: Write): Event
    requires w.phase.Returned?
  {
    Done(id, w.value, w.phase.failed, w.start, w.phase.end)
  }

  function AfterComplete(k: KeyWorld, id: nat, state: KeyState): KeyWorld
    requires id in k.sets && k.sets[id].phase.Returned?
  {
    k.(state := state, sets := k.sets - {id},
       hist := k.hist + [DoneEvent(id, k.sets[id])])
  }

  function Apply(pm: Params, k: KeyWorld, a: Action, now: int): KeyWorld
    requires Enabled(pm, k, a, now)
  {
    match a
    case StartSet(id, value) => k.(sets := k.sets[id := Write(value, now, Timed, {})])
    case BeginWrite(id) => AfterBegin(k, id)
    case Touch(id, host) => AfterTouch(k, id, host, now)
    case ReturnSet(id, failed) => AfterReturn(k, id, failed, now)
    case CompleteWrite(id) =>
      var w := k.sets[id];
      AfterComplete(k, id, CompleteWriteOp(k.state, Entry(pm, w, now), w.phase.initialVersion).value)
    case StartGet(id) => k.(gets := k.gets[id := Started(now)])
    case BeginRead(id) =>
      k.(gets := k.gets[id := Watching(k.gets[id].start, k.state.version, k.state.rc != 0, |k.hist|)])
    case Observe(id, host) =>
      var r := k.gets[id];
      k.(gets := k.gets[id := Observed(r.start, r.initialVersion, r.writesPending, r.pos, See(pm, k, host, now))])
    case EndGet(id) => k.(gets := k.gets - {id})
  }

  /** What CheckReadCorrect answers for an observed read. */
  function VerdictOn(pm: Params, k: KeyWorld, id: nat, now: int): Verdict
    requires id in k.gets && k.gets[id].Observed?
  {
    var r := k.gets[id];
    var value := if r.obs.Found? then r.obs.copy.value else "";
    Judge(pm.flags, k.state, value, r.obs.Found?, r.start, r.initialVersion, r.writesPending, now)
  }

  // ---- invariant of one key -----------------------------------------------------

  function ActiveIds(sets: map<nat, Write>): set<nat> {
    set id | id in sets && !sets[id].phase.Timed?
  }

  /** The copy's value is a candidate whose expiry window covers the copy's. */
  predicate Settled(pm: Params, s: KeyState, c: Copy) {
    && c.value in s.values
    && s.values[c.value].maybeExpiredBy <= c.effectAt + pm.ttl
    && (!s.values[c.value].failed ==>
          c.effectAt + pm.ttl + pm.flags.ttlBuffer <= s.values[c.value].definitelyExpiredBy)
  }

  predicate OwnedByPending(sets: map<nat, Write>, c: Copy) {
    && c.writer in sets
    && var w := sets[c.writer];
       && !w.phase.Timed? && w.value == c.value && w.start <= c.effectAt
       && (w.phase.Returned? && !w.phase.failed ==> c.effectAt <= w.phase.end)
  }

  predicate CopyInv(pm: Params, s: KeyState, sets: map<nat, Write>, h: History, c: Copy, now: int) {
    && c.effectAt <= now
    && BeganIn(h, c.writer)
    && (if c.writer in sets then OwnedByPending(sets, c) else Settled(pm, s, c))
  }

  predicate CopiesInv(pm: Params, s: KeyState, sets: map<nat, Write>, copies: map<nat, Copy>, h: History, now: int) {
    forall r <- copies :: CopyInv(pm, s, sets, h, copies[r], now)
  }

  predicate WriteInv(version: int, hosts: set<nat>, held: set<nat>, h: History, id: nat, w: Write, now: int) {
    && w.start <= now
    && w.touched <= held
    && (w.phase.Timed? ==> w.touched == {} && !BeganIn(h, id))
    && (w.phase.Returned? ==> w.phase.end <= now)
    && (w.phase.Returned? && !w.phase.failed ==> w.touched == hosts)
    && (!w.phase.Timed? ==>
          && w.phase.initialVersion <= version
          && w.phase.pos < |h| && h[w.phase.pos] == Begin(id)
          && w.phase.initialVersion == DoneCount(h[..w.phase.pos]))
  }

  predicate SetsInv(version: int, hosts: set<nat>, held: set<nat>, h: History, sets: map<nat, Write>, now: int) {
    forall id <- sets :: WriteInv(version, hosts, held, h, id, sets[id], now)
  }

  /** While no rival write shows in the counters, the replicas a write touched still hold its value. */
  predicate UnrivalledInv(s: KeyState, sets: map<nat, Write>, copies: map<nat, Copy>) {
    forall id <- sets ::
      !sets[id].phase.Timed? && s.rc == 1 && sets[id].phase.initialVersion == s.version ==>
        forall r <- sets[id].touched :: r in copies && copies[r].writer == id
  }

  predicate NoSuccessYet(h: History) {
    forall e <- h :: e.Done? ==> e.failed
  }

  predicate MissingCopyInv(hosts: set<nat>, held: set<nat>, h: History) {
    held <= hosts && (held != hosts ==> NoSuccessYet(h))
  }

  predicate Explained(pm: Params, s: KeyState, h: History, obs: Observation) {
    match obs
    case Found(c, at) => Settled(pm, s, c) && c.effectAt <= at <= c.effectAt + pm.ttl
    case Missing(Some(c), at) => Settled(pm, s, c) && c.effectAt + pm.ttl < at
    case Missing(None, _) => NoSuccessYet(h)
  }

  predicate ReadInv(pm: Params, s: KeyState, h: History, r: Read, now: int) {
    && r.start <= now
    && (!r.Started? ==>
          && r.initialVersion <= s.version
          && r.pos <= |h|
          && r.initialVersion == DoneCount(h[..r.pos])
          && (r.writesPending <==> PendingIds(h[..r.pos]) != {}))
    && (r.Observed? ==>
          && r.start <= r.obs.at <= now
          && (!Disturbed(s, r.initialVersion, r.writesPending) ==> Explained(pm, s, h, r.obs)))
  }

  predicate GetsInv(pm: Params, s: KeyState, h: History, gets: map<nat, Read>, now: int) {
    forall id <- gets :: ReadInv(pm, s, h, gets[id], now)
  }

  /** The counters count: completed writes, and writes under way. */
  ghost predicate CountInv(s: KeyState, active: set<nat>, h: History) {
    && WellFormed(h)
    && s.version == DoneCount(h)
    && active == PendingIds(h)
    && s.rc == |active|
  }

  /** The candidate sets are the live and the dead values of the history. */
  predicate CandidateInv(s: KeyState, live: set<string>, dead: set<string>) {
    && s.values.Keys == live
    && s.overwritten.Keys == dead
    && s.values.Keys !! s.overwritten.Keys
    && |s.values| + |s.overwritten| == s.version
  }

  /** The entry records the write `e`: when it started and was answered, shifted by the time to live. */
  predicate Records(pm: Params, x: StateValue, e: Event) {
    && e.Done? && x.value == e.value && x.failed == e.failed
    && x.maybeExpiredBy == e.start + pm.ttl
    && x.definitelyExpiredBy == e.end + pm.ttl + pm.flags.ttlBuffer
  }

  predicate EntriesInv(pm: Params, values: map<string, StateValue>, h: History) {
    forall v <- values :: exists e <- h :: Records(pm, values[v], e) && e.value == v
  }

  ghost predicate KeyInv(pm: Params, k: KeyWorld, now: int) {
    && CountInv(k.state, ActiveIds(k.sets), k.hist)
    && CandidateInv(k.state, Live(k.hist), Dead(k.hist))
    && UniqueValues(k.hist) && EntriesInv(pm, k.state.values, k.hist)
    && CopiesInv(pm, k.state, k.sets, k.copies, k.hist, now)
    && UnrivalledInv(k.state, k.sets, k.copies)
    && MissingCopyInv(k.hosts, k.copies.Keys, k.hist)
    && SetsInv(k.state.version, k.hosts, k.copies.Keys, k.hist, k.sets, now)
    && GetsInv(pm, k.state, k.hist, k.gets, now)
  }

  predicate InitKey(k: KeyWorld) {
    k.state == FRESH && k.copies == map[] && k.sets == map[] && k.gets == map[] && k.hist == []
  }

  lemma InitKeyInv(pm: Params, k: KeyWorld, now: int)
    requires InitKey(k)
    ensures KeyInv(pm, k, now)
  {
    assert ActiveIds(k.sets) == {} == PendingIds(k.hist);
  }

  // ---- every step keeps it ---------------------------------------------------------

  lemma StartSetParts(pm: Params, k: KeyWorld, id: nat, value: string, now: int)
    requires CopiesInv(pm, k.state, k.sets, k.copies, k.hist, now) && UnrivalledInv(k.state, k.sets, k.copies)
    requires SetsInv(k.state.version, k.hosts, k.copies.Keys, k.hist, k.sets, now)
    requires id !in k.sets && !BeganIn(k.hist, id)
    ensures
      var sets' := k.sets[id := Write(value, now, Timed, {})];
      && ActiveIds(sets') == ActiveIds(k.sets)
      && CopiesInv(pm, k.state, sets', k.copies, k.hist, now) && UnrivalledInv(k.state, sets', k.copies)
      && SetsInv(k.state.version, k.hosts, k.copies.Keys, k.hist, sets', now)
  {
    var sets' := k.sets[id := Write(value, now, Timed, {})];
    forall r <- k.copies ensures CopyInv(pm, k.state, sets', k.hist, k.copies[r], now) {
      assert CopyInv(pm, k.state, k.sets, k.hist, k.copies[r], now);
    }
  }

  lemma StartSetKeeps(pm: Params, k: KeyWorld, id: nat, value: string, now: int)
    requires KeyInv(pm, k, now) && id !in k.sets && !BeganIn(k.hist, id)
    ensures KeyInv(pm, k.(sets := k.sets[id := Write(value, now, Timed, {})]), now)
  {
    StartSetParts(pm, k, id, value, now);
  }

  lemma ReturnParts(pm: Params, k: KeyWorld, id: nat, failed: bool, now: int)
    requires CopiesInv(pm, k.state, k.sets, k.copies, k.hist, now) && UnrivalledInv(k.state, k.sets, k.copies)
    requires SetsInv(k.state.version, k.hosts, k.copies.Keys, k.hist, k.sets, now)
    requires id in k.sets && k.sets[id].phase.Begun? && (!failed ==> k.sets[id].touched == k.hosts)
    ensures
      var sets' := AfterReturn(k, id, failed, now).sets;
      && ActiveIds(sets') == ActiveIds(k.sets)
      && CopiesInv(pm, k.state, sets', k.copies, k.hist, now) && UnrivalledInv(k.state, sets', k.copies)
      && SetsInv(k.state.version, k.hosts, k.copies.Keys, k.hist, sets', now)
  {
    var sets' := AfterReturn(k, id, failed, now).sets;
    forall r <- k.copies ensures CopyInv(pm, k.state, sets', k.hist, k.copies[r], now) {
      assert CopyInv(pm, k.state, k.sets, k.hist, k.copies[r], now);
    }
  }

  lemma ReturnKeeps(pm: Params, k: KeyWorld, id: nat, failed: bool, now: int)
    requires KeyInv(pm, k, now)
    requires id in k.sets && k.sets[id].phase.Begun? && (!failed ==> k.sets[id].touched == k.hosts)
    ensures KeyInv(pm, AfterReturn(k, id, failed, now), now)
  {
    ReturnParts(pm, k, id, failed, now);
  }

  lemma TouchUnrivalled(k: KeyWorld, id: nat, host: nat, now: int)
    requires k.state.rc == |ActiveIds(k.sets)| && UnrivalledInv(k.state, k.sets, k.copies)
    requires id in k.sets && !k.sets[id].phase.Timed?
    ensures UnrivalledInv(k.state, AfterTouch(k, id, host, now).sets, AfterTouch(k, id, host, now).copies)
  {
    var sets' := AfterTouch(k, id, host, now).sets;
    var copies' := AfterTouch(k, id, host, now).copies;
    forall i <- sets', r <- sets'[i].touched |
      !sets'[i].phase.Timed? && k.state.rc == 1 && sets'[i].phase.initialVersion == k.state.version
      ensures r in copies' && copies'[r].writer == i
    {
      if i != id {
        assert {i, id} <= ActiveIds(k.sets);
        Grows({i, id}, ActiveIds(k.sets));
      }
    }
  }

  lemma TouchParts(pm: Params, k: KeyWorld, id: nat, host: nat, now: int)
    requires CopiesInv(pm, k.state, k.sets, k.copies, k.hist, now)
    requires SetsInv(k.state.version, k.hosts, k.copies.Keys, k.hist, k.sets, now)
    requires MissingCopyInv(k.hosts, k.copies.Keys, k.hist) && Enabled(pm, k, Touch(id, host), now)
    ensures
      var k' := AfterTouch(k, id, host, now);
      && ActiveIds(k'.sets) == ActiveIds(k.sets)
      && CopiesInv(pm, k.state, k'.sets, k'.copies, k.hist, now)
      && SetsInv(k.state.version, k.hosts, k'.copies.Keys, k.hist, k'.sets, now)
      && MissingCopyInv(k.hosts, k'.copies.Keys, k.hist)
  {
    var k' := AfterTouch(k, id, host, now);
    assert WriteInv(k.state.version, k.hosts, k.copies.Keys, k.hist, id, k.sets[id], now);
    assert Begin(id) in k.hist;
    assert k'.copies.Keys == k.copies.Keys + {host};
    forall r <- k'.copies ensures CopyInv(pm, k.state, k'.sets, k.hist, k'.copies[r], now) {
      assert r != host ==> CopyInv(pm, k.state, k.sets, k.hist, k.copies[r], now);
    }
    forall i <- k'.sets
      ensures WriteInv(k.state.version, k.hosts, k'.copies.Keys, k.hist, i, k'.sets[i], now)
    {
      assert WriteInv(k.state.version, k.hosts, k.copies.Keys, k.hist, i, k.sets[i], now);
    }
  }

  lemma TouchKeeps(pm: Params, k: KeyWorld, id: nat, host: nat, now: int)
    requires KeyInv(pm, k, now) && Enabled(pm, k, Touch(id, host), now)
    ensures KeyInv(pm, AfterTouch(k, id, host, now), now)
  {
    TouchParts(pm, k, id, host, now);
    TouchUnrivalled(k, id, host, now);
  }

  lemma BeginCounts(k: KeyWorld, id: nat)
    requires CountInv(k.state, ActiveIds(k.sets), k.hist)
    requires id in k.sets && k.sets[id].phase.Timed? && !BeganIn(k.hist, id)
    ensures CountInv(BeginWriteOp(k.state), ActiveIds(AfterBegin(k, id).sets), k.hist + [Begin(id)])
  {
    var e := Begin(id);
    NeverDone(k.hist, id);
    WellFormedAppend(k.hist, e);
    PendingAppend(k.hist, e);
    DoneCountAppend(k.hist, e);
    assert ActiveIds(AfterBegin(k, id).sets) == ActiveIds(k.sets) + {id};
  }

  lemma BeginUnrivalled(k: KeyWorld, id: nat)
    requires k.state.rc == |ActiveIds(k.sets)|
    requires id in k.sets && k.sets[id].phase.Timed? && k.sets[id].touched == {}
    ensures UnrivalledInv(BeginWriteOp(k.state), AfterBegin(k, id).sets, k.copies)
  {
    var k' := AfterBegin(k, id);
    if k'.state.rc == 1 {
      assert ActiveIds(k.sets) == {};
      assert forall i <- k'.sets :: !k'.sets[i].phase.Timed? && i != id ==> i in ActiveIds(k.sets);
    }
  }

  lemma BeginSets(k: KeyWorld, id: nat, now: int)
    requires id in k.sets && k.sets[id].phase.Timed? && k.state.version == DoneCount(k.hist)
    requires SetsInv(k.state.version, k.hosts, k.copies.Keys, k.hist, k.sets, now)
    ensures SetsInv(k.state.version, k.hosts, k.copies.Keys, k.hist + [Begin(id)], AfterBegin(k, id).sets, now)
  {
    PrefixesKept(k.hist, Begin(id));
    forall i <- k.sets ensures
      WriteInv(k.state.version, k.hosts, k.copies.Keys, k.hist + [Begin(id)], i, AfterBegin(k, id).sets[i], now)
    {
      assert WriteInv(k.state.version, k.hosts, k.copies.Keys, k.hist, i, k.sets[i], now);
    }
  }

  lemma BeginGets(pm: Params, s: KeyState, h: History, id: nat, r: Read, now: int)
    requires 0 <= s.rc && ReadInv(pm, s, h, r, now)
    ensures ReadInv(pm, BeginWriteOp(s), h + [Begin(id)], r, now)
  {
    PrefixesKept(h, Begin(id));
  }

  lemma BeginCopies(pm: Params, k: KeyWorld, id: nat, now: int)
    requires CopiesInv(pm, k.state, k.sets, k.copies, k.hist, now)
    requires MissingCopyInv(k.hosts, k.copies.Keys, k.hist) && id in k.sets && k.sets[id].phase.Timed?
    ensures CopiesInv(pm, BeginWriteOp(k.state), AfterBegin(k, id).sets, k.copies, k.hist + [Begin(id)], now)
    ensures MissingCopyInv(k.hosts, k.copies.Keys, k.hist + [Begin(id)])
  {
    forall r <- k.copies
      ensures CopyInv(pm, BeginWriteOp(k.state), AfterBegin(k, id).sets, k.hist + [Begin(id)], k.copies[r], now)
    {
      assert CopyInv(pm, k.state, k.sets, k.hist, k.copies[r], now);
    }
  }

  lemma EntriesKept(pm: Params, values: map<string, StateValue>, h: History, e: Event)
    requires EntriesInv(pm, values, h)
    ensures EntriesInv(pm, values, h + [e])
  {
    forall v <- values ensures exists d <- h + [e] :: Records(pm, values[v], d) && d.value == v {
      var d :| d in h && Records(pm, values[v], d) && d.value == v;
      assert d in h + [e];
    }
  }

  lemma BeginKeeps(pm: Params, k: KeyWorld, id: nat, now: int)
    requires KeyInv(pm, k, now) && id in k.sets && k.sets[id].phase.Timed?
    ensures KeyInv(pm, AfterBegin(k, id), now)
  {
    assert WriteInv(k.state.version, k.hosts, k.copies.Keys, k.hist, id, k.sets[id], now);
    BeginCounts(k, id);
    LiveAppendBegin(k.hist, id);
    UniqueAppend(k.hist, Begin(id));
    EntriesKept(pm, k.state.values, k.hist, Begin(id));
    BeginCopies(pm, k, id, now);
    BeginUnrivalled(k, id);
    BeginSets(k, id, now);
    forall i <- k.gets { BeginGets(pm, k.state, k.hist, id, k.gets[i], now); }
  }

  // ---- completing a write -----------------------------------------------------------

  lemma CountDone(s: KeyState, s': KeyState, active: set<nat>, h: History, e: Event)
    requires CountInv(s, active, h) && e.Done? && e.id in active
    requires s'.version == s.version + 1 && s'.rc == s.rc - 1
    ensures CountInv(s', active - {e.id}, h + [e])
  {
    assert Begin(e.id) in h && !DoneIn(h, e.id);
    WellFormedAppend(h, e);
    PendingAppend(h, e);
    DoneCountAppend(h, e);
  }

  lemma ActiveRemoved(sets: map<nat, Write>, id: nat)
    requires id in sets && sets[id].phase.Returned?
    ensures id in ActiveIds(sets) && ActiveIds(sets - {id}) == ActiveIds(sets) - {id}
  {}

  lemma CompleteCounts(k: KeyWorld, id: nat, s': KeyState)
    requires CountInv(k.state, ActiveIds(k.sets), k.hist) && id in k.sets && k.sets[id].phase.Returned?
    requires s'.version == k.state.version + 1 && s'.rc == k.state.rc - 1
    ensures CountInv(s', ActiveIds(k.sets - {id}), AfterComplete(k, id, s').hist)
  {
    ActiveRemoved(k.sets, id);
    CountDone(k.state, s', ActiveIds(k.sets), k.hist, DoneEvent(id, k.sets[id]));
  }

  /** The program's overlap test means what the history says. */
  lemma UnrivalledExact(k: KeyWorld, id: nat, now: int)
    requires CountInv(k.state, ActiveIds(k.sets), k.hist) && id in k.sets && !k.sets[id].phase.Timed?
    requires WriteInv(k.state.version, k.hosts, k.copies.Keys, k.hist, id, k.sets[id], now)
    ensures k.sets[id].phase.initialVersion == k.state.version && k.state.rc == 1
            <==> Alone(k.hist, k.sets[id].phase.pos)
  {
    assert id in ActiveIds(k.sets);
    AloneExact(k.hist, k.sets[id].phase.pos);
  }

  lemma CleanNow(h: History, p: nat, e: Event)
    requires WellFormed(h) && p < |h| && e.Done? && h[p] == Begin(e.id)
    ensures CleanAt(h + [e], |h|) <==> !e.failed && Alone(h, p)
  {
    var g := h + [e];
    assert g[..|h|] == h;
    assert g[|h|] == e;
    assert g[p] == h[p];
  }

  lemma ReplaceCandidates(s: KeyState, live: set<string>, dead: set<string>, entry: StateValue, initialVersion: int)
    requires CandidateInv(s, live, dead)
    requires CompleteWriteOp(s, entry, initialVersion).Some? && Unrivalled(s, entry.failed, initialVersion)
    ensures CandidateInv(CompleteWriteOp(s, entry, initialVersion).value, {entry.value}, dead + live)
  {
    assert |dead + live| == |dead| + |live|;
    assert (s.overwritten + s.values).Keys == dead + live;
  }

  lemma AddCandidate(s: KeyState, live: set<string>, dead: set<string>, entry: StateValue, initialVersion: int)
    requires CandidateInv(s, live, dead)
    requires CompleteWriteOp(s, entry, initialVersion).Some? && !Unrivalled(s, entry.failed, initialVersion)
    ensures CandidateInv(CompleteWriteOp(s, entry, initialVersion).value, live + {entry.value}, dead)
  {
    assert s.values[entry.value := entry].Keys == live + {entry.value};
  }

  lemma UnrivalledIsClean(k: KeyWorld, id: nat, now: int)
    requires CountInv(k.state, ActiveIds(k.sets), k.hist) && id in k.sets && k.sets[id].phase.Returned?
    requires WriteInv(k.state.version, k.hosts, k.copies.Keys, k.hist, id, k.sets[id], now)
    ensures CleanAt(k.hist + [DoneEvent(id, k.sets[id])], |k.hist|) <==>
              Unrivalled(k.state, k.sets[id].phase.failed, k.sets[id].phase.initialVersion)
  {
    UnrivalledExact(k, id, now);
    CleanNow(k.hist, k.sets[id].phase.pos, DoneEvent(id, k.sets[id]));
  }

  lemma CompleteCandidates(s: KeyState, live: set<string>, dead: set<string>, live': set<string>, dead': set<string>,
                           entry: StateValue, initialVersion: int)
    requires CandidateInv(s, live, dead) && CompleteWriteOp(s, entry, initialVersion).Some?
    requires if Unrivalled(s, entry.failed, initialVersion)
             then live' == {entry.value} && dead' == dead + live
             else live' == live + {entry.value} && dead' == dead
    ensures CandidateInv(CompleteWriteOp(s, entry, initialVersion).value, live', dead')
  {
    if Unrivalled(s, entry.failed, initialVersion) {
      ReplaceCandidates(s, live, dead, entry, initialVersion);
    } else {
      AddCandidate(s, live, dead, entry, initialVersion);
    }
  }

  lemma CompleteCopies(pm: Params, k: KeyWorld, id: nat, s': KeyState, now: int)
    requires id in k.sets && k.sets[id].phase.Returned?
    requires CopiesInv(pm, k.state, k.sets, k.copies, k.hist, now) && UnrivalledInv(k.state, k.sets, k.copies)
    requires WriteInv(k.state.version, k.hosts, k.copies.Keys, k.hist, id, k.sets[id], now)
    requires MissingCopyInv(k.hosts, k.copies.Keys, k.hist)
    requires CompleteWriteOp(k.state, Entry(pm, k.sets[id], now), k.sets[id].phase.initialVersion) == Some(s')
    ensures CopiesInv(pm, s', k.sets - {id}, k.copies, AfterComplete(k, id, s').hist, now)
  {
    var w := k.sets[id];
    forall r <- k.copies ensures CopyInv(pm, s', k.sets - {id}, AfterComplete(k, id, s').hist, k.copies[r], now) {
      assert CopyInv(pm, k.state, k.sets, k.hist, k.copies[r], now);
      assert Begin(k.copies[r].writer) in AfterComplete(k, id, s').hist;
      if Unrivalled(k.state, w.phase.failed, w.phase.initialVersion) {
        assert r in w.touched;
      }
    }
  }

  lemma CompleteSets(k: KeyWorld, id: nat, s': KeyState, now: int)
    requires id in k.sets && k.sets[id].phase.Returned? && s'.version == k.state.version + 1
    requires SetsInv(k.state.version, k.hosts, k.copies.Keys, k.hist, k.sets, now)
    requires MissingCopyInv(k.hosts, k.copies.Keys, k.hist)
    ensures UnrivalledInv(s', k.sets - {id}, k.copies)
    ensures MissingCopyInv(k.hosts, k.copies.Keys, AfterComplete(k, id, s').hist)
    ensures SetsInv(s'.version, k.hosts, k.copies.Keys, AfterComplete(k, id, s').hist, k.sets - {id}, now)
  {
    PrefixesKept(k.hist, DoneEvent(id, k.sets[id]));
    forall i <- k.sets ensures
      && (!k.sets[i].phase.Timed? ==> k.sets[i].phase.initialVersion < s'.version)
      && WriteInv(s'.version, k.hosts, k.copies.Keys, AfterComplete(k, id, s').hist, i, k.sets[i], now)
    {
      assert WriteInv(k.state.version, k.hosts, k.copies.Keys, k.hist, i, k.sets[i], now);
    }
  }

  lemma CompleteGets(pm: Params, s: KeyState, s': KeyState, h: History, e: Event, r: Read, now: int)
    requires s'.version == s.version + 1 && ReadInv(pm, s, h, r, now)
    ensures ReadInv(pm, s', h + [e], r, now)
  {
    PrefixesKept(h, e);
  }

  lemma CompleteUnique(pm: Params, s: KeyState, h: History, id: nat, w: Write, now: int)
    requires w.phase.Returned? && UniqueValues(h) && CandidateInv(s, Live(h), Dead(h))
    requires CompleteWriteOp(s, Entry(pm, w, now), w.phase.initialVersion).Some?
    ensures UniqueValues(h + [DoneEvent(id, w)])
  {
    LiveOrDead(h, w.value);
    UniqueAppend(h, DoneEvent(id, w));
  }

  lemma CompleteEntries(pm: Params, s: KeyState, s': KeyState, h: History, id: nat, w: Write, now: int)
    requires w.phase.Returned? && EntriesInv(pm, s.values, h)
    requires CompleteWriteOp(s, Entry(pm, w, now), w.phase.initialVersion) == Some(s')
    ensures EntriesInv(pm, s'.values, h + [DoneEvent(id, w)])
  {
    var e := DoneEvent(id, w);
    EntriesKept(pm, s.values, h, e);
    assert e in h + [e] && Records(pm, Entry(pm, w, now), e);
    forall v <- s'.values ensures exists d <- h + [e] :: Records(pm, s'.values[v], d) && d.value == v {
      if v == e.value { assert Records(pm, s'.values[v], e); }
    }
  }

  lemma CompleteLive(pm: Params, k: KeyWorld, id: nat, s': KeyState, now: int)
    requires CountInv(k.state, ActiveIds(k.sets), k.hist) && id in k.sets && k.sets[id].phase.Returned?
    requires WriteInv(k.state.version, k.hosts, k.copies.Keys, k.hist, id, k.sets[id], now)
    requires CandidateInv(k.state, Live(k.hist), Dead(k.hist))
    requires CompleteWriteOp(k.state, Entry(pm, k.sets[id], now), k.sets[id].phase.initialVersion) == Some(s')
    ensures CandidateInv(s', Live(AfterComplete(k, id, s').hist), Dead(AfterComplete(k, id, s').hist))
  {
    var e := DoneEvent(id, k.sets[id]);
    UnrivalledIsClean(k, id, now);
    LiveAppendDone(k.hist, e);
    CompleteCandidates(k.state, Live(k.hist), Dead(k.hist), Live(k.hist + [e]), Dead(k.hist + [e]),
                       Entry(pm, k.sets[id], now), k.sets[id].phase.initialVersion);
  }

  lemma CompleteAllGets(pm: Params, s: KeyState, s': KeyState, h: History, e: Event, gets: map<nat, Read>, now: int)
    requires s'.version == s.version + 1 && GetsInv(pm, s, h, gets, now)
    ensures GetsInv(pm, s', h + [e], gets, now)
  {
    forall i <- gets { CompleteGets(pm, s, s', h, e, gets[i], now); }
  }

  lemma CompleteKeeps(pm: Params, k: KeyWorld, id: nat, s': KeyState, now: int)
    requires KeyInv(pm, k, now) && id in k.sets && k.sets[id].phase.Returned?
    requires CompleteWriteOp(k.state, Entry(pm, k.sets[id], now), k.sets[id].phase.initialVersion) == Some(s')
    ensures KeyInv(pm, AfterComplete(k, id, s'), now)
  {
    assert WriteInv(k.state.version, k.hosts, k.copies.Keys, k.hist, id, k.sets[id], now);
    CompleteCounts(k, id, s');
    CompleteCopies(pm, k, id, s', now);
    CompleteSets(k, id, s', now);
    CompleteLive(pm, k, id, s', now);
    CompleteUnique(pm, k.state, k.hist, id, k.sets[id], now);
    CompleteEntries(pm, k.state, s', k.hist, id, k.sets[id], now);
    CompleteAllGets(pm, k.state, s', k.hist, DoneEvent(id, k.sets[id]), k.gets, now);
  }

  // ---- reads ------------------------------------------------------------------------

  /** What a read sees while nothing disturbs it is explained by the candidates. */
  lemma SeeExplained(pm: Params, k: KeyWorld, host: nat, now: int)
    requires k.state.rc == |ActiveIds(k.sets)| && CopiesInv(pm, k.state, k.sets, k.copies, k.hist, now)
    requires MissingCopyInv(k.hosts, k.copies.Keys, k.hist) && host in k.hosts && k.state.rc == 0
    ensures Explained(pm, k.state, k.hist, See(pm, k, host, now))
  {
    assert ActiveIds(k.sets) == {};
    if host in k.copies {
      var c := k.copies[host];
      assert CopyInv(pm, k.state, k.sets, k.hist, c, now);
      assert OwnedByPending(k.sets, c) ==> c.writer in ActiveIds(k.sets);
    }
  }

  lemma BeginReadInv(pm: Params, s: KeyState, active: set<nat>, h: History, start: int, now: int)
    requires CountInv(s, active, h) && start <= now
    ensures ReadInv(pm, s, h, Watching(start, s.version, s.rc != 0, |h|), now)
  {
    assert h[..|h|] == h;
  }

  /** A step of a Get changes nothing but that Get. */
  lemma GetChanges(pm: Params, k: KeyWorld, id: nat, r: Read, now: int)
    requires KeyInv(pm, k, now) && ReadInv(pm, k.state, k.hist, r, now)
    ensures KeyInv(pm, k.(gets := k.gets[id := r]), now)
  {}

  lemma GetEnds(pm: Params, k: KeyWorld, id: nat, now: int)
    requires KeyInv(pm, k, now)
    ensures KeyInv(pm, k.(gets := k.gets - {id}), now)
  {}

  lemma BeginReadKeeps(pm: Params, k: KeyWorld, id: nat, now: int)
    requires KeyInv(pm, k, now) && Enabled(pm, k, BeginRead(id), now)
    ensures KeyInv(pm, Apply(pm, k, BeginRead(id), now), now)
  {
    var start := k.gets[id].start;
    assert ReadInv(pm, k.state, k.hist, k.gets[id], now);
    BeginReadInv(pm, k.state, ActiveIds(k.sets), k.hist, start, now);
    GetChanges(pm, k, id, Watching(start, k.state.version, k.state.rc != 0, |k.hist|), now);
  }

  lemma ObserveInv(pm: Params, k: KeyWorld, host: nat, r: Read, now: int)
    requires k.state.rc == |ActiveIds(k.sets)| && CopiesInv(pm, k.state, k.sets, k.copies, k.hist, now)
    requires MissingCopyInv(k.hosts, k.copies.Keys, k.hist) && host in k.hosts
    requires r.Watching? && ReadInv(pm, k.state, k.hist, r, now)
    ensures ReadInv(pm, k.state, k.hist,
                    Observed(r.start, r.initialVersion, r.writesPending, r.pos, See(pm, k, host, now)), now)
  {
    if k.state.rc == 0 { SeeExplained(pm, k, host, now); }
  }

  lemma ObserveKeeps(pm: Params, k: KeyWorld, id: nat, host: nat, now: int)
    requires KeyInv(pm, k, now) && Enabled(pm, k, Observe(id, host), now)
    ensures KeyInv(pm, Apply(pm, k, Observe(id, host), now), now)
  {
    var r := k.gets[id];
    ObserveInv(pm, k, host, r, now);
    GetChanges(pm, k, id, Observed(r.start, r.initialVersion, r.writesPending, r.pos, See(pm, k, host, now)), now);
  }

  lemma StepKeeps(pm: Params, k: KeyWorld, a: Action, now: int)
    requires KeyInv(pm, k, now) && Enabled(pm, k, a, now)
    ensures KeyInv(pm, Apply(pm, k, a, now), now)
  {
    match a
    case StartSet(id, value) => StartSetKeeps(pm, k, id, value, now);
    case BeginWrite(id) => BeginKeeps(pm, k, id, now);
    case Touch(id, host) => TouchKeeps(pm, k, id, host, now);
    case ReturnSet(id, failed) => ReturnKeeps(pm, k, id, failed, now);
    case CompleteWrite(id) => CompleteKeeps(pm, k, id, Apply(pm, k, a, now).state, now);
    case StartGet(id) => GetChanges(pm, k, id, Started(now), now);
    case BeginRead(id) => BeginReadKeeps(pm, k, id, now);
    case Observe(id, host) => ObserveKeeps(pm, k, id, host, now);
    case EndGet(id) => GetEnds(pm, k, id, now);
  }

  lemma StepKeepsOverwritten(pm: Params, k: KeyWorld, a: Action, now: int)
    requires Enabled(pm, k, a, now)
    ensures k.state.overwritten.Keys <= Apply(pm, k, a, now).state.overwritten.Keys
  {
    if a.CompleteWrite? {
      var w := k.sets[a.id];
      var after := CompleteWriteOp(k.state, Entry(pm, w, now), w.phase.initialVersion).value;
      assert k.state.overwritten.Keys <= after.overwritten.Keys;
    }
  }
}
