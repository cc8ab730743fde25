/**
 The double update as a barrier.

 Publishing a shard map swaps the state and then, under the read lock, hands one
 notification to every registered listener over an unbuffered channel. A
 listener's loop takes the next notification only after the handler of the
 previous one has returned; besides, making a server runs the handler once itself,
 right after registering. `UpdateShardMapping` publishes the same map twice,
 and any number of updaters, listeners and closings interleave.
 */
module ListenerBarrier {
  /** `since` is how many maps had been published when the handler began. */
  datatype Loop = Unstarted | Ready | Handling(since: nat) | Stopped

  /** The handler run of the server's constructor; it is over once the constructor has returned. */
  datatype Own = NotBegun | Running(since: nat) | Over(since: nat)

  /** `runs` lists, for every completed run in the loop, how many maps had been published when it began. */
  datatype Listener = Listener(loop: Loop, runs: seq<nat>, own: Own)

  datatype Phase =
    | Swapping(second: bool)
    | Locking(second: bool)
    | Sending(second: bool, todo: set<nat>)
    | Returned

  /**
   `first` numbers the updater's first publication; `seen` and `seenAgain` are the
   listeners registered when it took the lock for its two rounds.
   */
  datatype Updater = Updater(phase: Phase, first: nat, seen: set<nat>, seenAgain: set<nat>)

  datatype Sys = Sys(published: nat, counter: nat, listeners: map<nat, Listener>, updaters: map<nat, Updater>)

  datatype Action =
    | MakeListener
    | BeginOwn(id: nat)
    | FinishOwn(id: nat)
    | StartLoop(id: nat)
    | StopLoop(id: nat)
    | FinishHandler(id: nat)
    | Close(id: nat)
    | BeginUpdate(u: nat)
    | Swap(u: nat)
    | Lock(u: nat)
    | Send(u: nat, id: nat)
    | Unlock(u: nat)

  /** Some updater is walking over the channels, so the listener table may not change. */
  predicate ReadLocked(s: Sys) {
    exists u <- s.updaters :: s.updaters[u].phase.Sending?
  }

  predicate Enabled(s: Sys, a: Action) {
    match a
    case MakeListener => !ReadLocked(s)
    case BeginOwn(id) => id in s.listeners && s.listeners[id].own.NotBegun?
    case FinishOwn(id) => id in s.listeners && s.listeners[id].own.Running?
    case StartLoop(id) => id in s.listeners && s.listeners[id].loop.Unstarted?
    case StopLoop(id) => id in s.listeners && s.listeners[id].loop.Ready?
    case FinishHandler(id) => id in s.listeners && s.listeners[id].loop.Handling?
    case Close(id) => id in s.listeners && !ReadLocked(s)
    case BeginUpdate(u) => u !in s.updaters
    case Swap(u) => u in s.updaters && s.updaters[u].phase.Swapping?
    case Lock(u) => u in s.updaters && s.updaters[u].phase.Locking?
    case Send(u, id) =>
      && u in s.updaters && s.updaters[u].phase.Sending? && id in s.updaters[u].phase.todo
      && id in s.listeners && s.listeners[id].loop.Ready?
    case Unlock(u) => u in s.updaters && s.updaters[u].phase.Sending? && s.updaters[u].phase.todo == {}
  }

  function SetListener(s: Sys, id: nat, l: Listener): Sys {
    s.(listeners := s.listeners[id := l])
  }

  function SetUpdater(s: Sys, u: nat, up: Updater): Sys {
    s.(updaters := s.updaters[u := up])
  }

  /** What a step of one listener makes of it. */
  function NextListener(s: Sys, a: Action): Listener
    requires Enabled(s, a) && (a.BeginOwn? || a.FinishOwn? || a.StartLoop? || a.StopLoop? || a.FinishHandler?)
  {
    var l := s.listeners[a.id];
    match a
    case BeginOwn(_) => l.(own := Running(s.published))
    case FinishOwn(_) => l.(own := Over(l.own.since))
    case StartLoop(_) => l.(loop := Ready)
    case StopLoop(_) => l.(loop := Stopped)
    case _ => l.(loop := Ready, runs := l.runs + [l.loop.since])
  }

  /** What a step of one updater makes of it. */
  function NextUpdater(s: Sys, a: Action): Updater
    requires Enabled(s, a) && (a.BeginUpdate? || a.Swap? || a.Lock? || a.Send? || a.Unlock?)
  {
    match a
    case BeginUpdate(_) => Updater(Swapping(false), 0, {}, {})
    case Swap(u) =>
      var up := s.updaters[u];
      if up.phase.second then up.(phase := Locking(true)) else up.(phase := Locking(false), first := s.published + 1)
    case Lock(u) =>
      var up := s.updaters[u].(phase := Sending(s.updaters[u].phase.second, s.listeners.Keys));
      if up.phase.second then up.(seenAgain := s.listeners.Keys) else up.(seen := s.listeners.Keys)
    case Send(u, id) =>
      var up := s.updaters[u];
      up.(phase := up.phase.(todo := up.phase.todo - {id}))
    case Unlock(u) =>
      s.updaters[u].(phase := if s.updaters[u].phase.second then Returned else Swapping(true))
  }

  function Apply(s: Sys, a: Action): Sys
    requires Enabled(s, a)
  {
    match a
    case MakeListener =>
      s.(counter := s.counter + 1, listeners := s.listeners[s.counter := Listener(Unstarted, [], NotBegun)])
    case Close(id) => s.(listeners := s.listeners - {id})
    case BeginUpdate(u) => SetUpdater(s, u, NextUpdater(s, a))
    case Swap(u) => SetUpdater(s, u, NextUpdater(s, a)).(published := s.published + 1)
    case Lock(u) => SetUpdater(s, u, NextUpdater(s, a))
    case Send(u, id) =>
      SetUpdater(SetListener(s, id, s.listeners[id].(loop := Handling(s.published))), u, NextUpdater(s, a))
    case Unlock(u) => SetUpdater(s, u, NextUpdater(s, a))
    case _ => SetListener(s, a.id, NextListener(s, a))
  }

  predicate Init(s: Sys) {
    s.published == 0 && s.counter == 0 && s.listeners == map[] && s.updaters == map[]
  }

  predicate StepAt(ss: seq<Sys>, acts: seq<Action>, i: nat)
    requires |ss| == |acts| + 1 && i < |acts|
  {
    Enabled(ss[i], acts[i]) && ss[i + 1] == Apply(ss[i], acts[i])
  }

  predicate IsRun(ss: seq<Sys>, acts: seq<Action>) {
    && |ss| == |acts| + 1
    && Init(ss[0])
    && forall i :: 0 <= i < |acts| ==> StepAt(ss, acts, i)
  }

  // ---- invariant -----------------------------------------------------------------------

  /** A run of the loop's handler that began after publication `p` has completed. */
  predicate Done(l: Listener, p: nat) {
    exists since <- l.runs :: p <= since
  }

  /** Such a run has completed or is under way. */
  predicate Begun(l: Listener, p: nat) {
    Done(l, p) || (l.loop.Handling? && p <= l.loop.since)
  }

  /** A handler run that began after publication `p` has completed, in the loop or in the constructor. */
  predicate Completed(l: Listener, p: nat) {
    Done(l, p) || (l.own.Over? && p <= l.own.since)
  }

  /** Every handler run of the listener began after publication `p`. */
  predicate NewSince(l: Listener, p: nat) {
    && (forall since <- l.runs :: p <= since)
    && (l.loop.Handling? ==> p <= l.loop.since)
    && (!l.own.NotBegun? ==> p <= l.own.since)
  }

  /** What an updater has achieved for a listener it saw in its first round. */
  predicate Served(up: Updater, id: nat, l: Listener) {
    match up.phase
    case Swapping(second) => second ==> Begun(l, up.first)
    case Locking(second) => second ==> Begun(l, up.first)
    case Sending(second, todo) =>
      if second then Begun(l, up.first) && (id !in todo ==> Done(l, up.first))
      else id !in todo ==> Begun(l, up.first)
    case Returned => Done(l, up.first)
  }

  /** What it has achieved for one it saw in its second round. */
  predicate ServedAgain(up: Updater, id: nat, l: Listener) {
    match up.phase
    case Sending(second, todo) => second && id !in todo ==> Begun(l, up.first + 1)
    case Returned => Begun(l, up.first + 1)
    case _ => true
  }

  /** The updater has published for the second time. */
  predicate PublishedTwice(up: Updater) {
    match up.phase
    case Swapping(_) => false
    case Locking(second) => second
    case Sending(second, _) => second
    case Returned => true
  }

  /** The updater has taken the lock for its first round. */
  predicate LockedOnce(up: Updater) {
    match up.phase
    case Swapping(second) => second
    case Locking(second) => second
    case _ => true
  }

  predicate UpdaterInv(up: Updater, published: nat, counter: nat, listeners: map<nat, Listener>) {
    && up.first + (if PublishedTwice(up) then 1 else 0) <= published
    && (forall id <- up.seen :: id < counter)
    && (forall id <- up.seenAgain :: id < counter)
    && (up.phase.Sending? ==> up.phase.todo <= listeners.Keys)
    && (forall id <- up.seen :: id in listeners ==> Served(up, id, listeners[id]))
    && (forall id <- up.seenAgain :: id in listeners ==> ServedAgain(up, id, listeners[id]))
    && (LockedOnce(up) ==> forall id <- listeners :: id !in up.seen ==> NewSince(listeners[id], up.first))
  }

  predicate Inv(s: Sys) {
    && (forall id <- s.listeners :: id < s.counter)
    && forall u <- s.updaters :: UpdaterInv(s.updaters[u], s.published, s.counter, s.listeners)
  }

  /** The listener loses no run, and every new one begins now. */
  ghost predicate Advances(l: Listener, l': Listener, published: nat) {
    && (forall p: nat :: Done(l, p) ==> Done(l', p))
    && (forall p: nat :: Begun(l, p) ==> Begun(l', p))
    && (forall p: nat :: p <= published && NewSince(l, p) ==> NewSince(l', p))
  }

  lemma ListenerStep(up: Updater, published: nat, counter: nat, listeners: map<nat, Listener>, id: nat, l: Listener)
    requires UpdaterInv(up, published, counter, listeners) && id in listeners
    requires Advances(listeners[id], l, published)
    ensures UpdaterInv(up, published, counter, listeners[id := l])
  {}

  lemma SetListenerKeeps(s: Sys, id: nat, l: Listener)
    requires Inv(s) && id in s.listeners && Advances(s.listeners[id], l, s.published)
    ensures Inv(SetListener(s, id, l))
  {
    forall u <- s.updaters
      ensures UpdaterInv(s.updaters[u], s.published, s.counter, s.listeners[id := l])
    {
      ListenerStep(s.updaters[u], s.published, s.counter, s.listeners, id, l);
    }
  }

  lemma SetUpdaterKeeps(s: Sys, u: nat, up: Updater)
    requires Inv(s) && UpdaterInv(up, s.published, s.counter, s.listeners)
    ensures Inv(SetUpdater(s, u, up))
  {}

  lemma NextListenerAdvances(s: Sys, a: Action)
    requires Enabled(s, a) && (a.BeginOwn? || a.FinishOwn? || a.StartLoop? || a.StopLoop? || a.FinishHandler?)
    ensures Advances(s.listeners[a.id], NextListener(s, a), s.published)
  {
    var l, l' := s.listeners[a.id], NextListener(s, a);
    if a.FinishHandler? { assert l.loop.since in l'.runs; }
    assert forall x :: x in l.runs ==> x in l'.runs;
  }

  /** Taking a notification means the previous handler run is over. */
  lemma SendAdvances(l: Listener, published: nat)
    requires l.loop.Ready?
    ensures Advances(l, l.(loop := Handling(published)), published)
  {}

  lemma SentUpdater(s: Sys, u: nat, id: nat)
    requires Enabled(s, Send(u, id))
    requires UpdaterInv(s.updaters[u], s.published, s.counter, s.listeners)
    ensures UpdaterInv(NextUpdater(s, Send(u, id)), s.published, s.counter,
                       s.listeners[id := s.listeners[id].(loop := Handling(s.published))])
  {
    var up, up' := s.updaters[u], NextUpdater(s, Send(u, id));
    var l' := s.listeners[id].(loop := Handling(s.published));
    SendAdvances(s.listeners[id], s.published);
    ListenerStep(up, s.published, s.counter, s.listeners, id, l');
    var listeners' := s.listeners[id := l'];
    forall i <- up.seen | i in listeners' ensures Served(up', i, listeners'[i]) {
      assert Served(up, i, s.listeners[i]) && Served(up, i, listeners'[i]);
    }
    forall i <- up.seenAgain | i in listeners' ensures ServedAgain(up', i, listeners'[i]) {
      assert ServedAgain(up, i, listeners'[i]);
    }
  }

  lemma SendKeeps(s: Sys, u: nat, id: nat)
    requires Inv(s) && Enabled(s, Send(u, id))
    ensures Inv(Apply(s, Send(u, id)))
  {
    var l' := s.listeners[id].(loop := Handling(s.published));
    SendAdvances(s.listeners[id], s.published);
    SetListenerKeeps(s, id, l');
    assert UpdaterInv(s.updaters[u], s.published, s.counter, s.listeners);
    SentUpdater(s, u, id);
    SetUpdaterKeeps(SetListener(s, id, l'), u, NextUpdater(s, Send(u, id)));
  }

  lemma TableKeeps(s: Sys, a: Action)
    requires Inv(s) && Enabled(s, a) && (a.MakeListener? || a.Close?)
    ensures Inv(Apply(s, a))
  {
    var s' := Apply(s, a);
    forall u <- s.updaters ensures UpdaterInv(s.updaters[u], s'.published, s'.counter, s'.listeners) {
      assert UpdaterInv(s.updaters[u], s.published, s.counter, s.listeners);
    }
  }

  lemma NextUpdaterInv(s: Sys, a: Action)
    requires Enabled(s, a) && (a.BeginUpdate? || a.Lock? || a.Unlock?)
    requires forall id <- s.listeners :: id < s.counter
    requires a.u in s.updaters ==> UpdaterInv(s.updaters[a.u], s.published, s.counter, s.listeners)
    ensures UpdaterInv(NextUpdater(s, a), s.published, s.counter, s.listeners)
  {}

  lemma SwapKeeps(s: Sys, u: nat)
    requires Inv(s) && Enabled(s, Swap(u))
    ensures Inv(Apply(s, Swap(u)))
  {
    var t := s.(published := s.published + 1);
    forall v <- t.updaters ensures UpdaterInv(t.updaters[v], t.published, t.counter, t.listeners) {
      assert UpdaterInv(s.updaters[v], s.published, s.counter, s.listeners);
    }
    SetUpdaterKeeps(t, u, NextUpdater(s, Swap(u)));
  }

  lemma StepKeeps(s: Sys, a: Action)
    requires Inv(s) && Enabled(s, a)
    ensures Inv(Apply(s, a))
  {
    match a
    case MakeListener => TableKeeps(s, a);
    case Close(_) => TableKeeps(s, a);
    case Swap(u) => SwapKeeps(s, u);
    case Send(u, id) => SendKeeps(s, u, id);
    case BeginUpdate(u) => NextUpdaterInv(s, a); SetUpdaterKeeps(s, u, NextUpdater(s, a));
    case Lock(u) => NextUpdaterInv(s, a); SetUpdaterKeeps(s, u, NextUpdater(s, a));
    case Unlock(u) => NextUpdaterInv(s, a); SetUpdaterKeeps(s, u, NextUpdater(s, a));
    case _ => NextListenerAdvances(s, a); SetListenerKeeps(s, a.id, NextListener(s, a));
  }

  lemma RunStep(ss: seq<Sys>, acts: seq<Action>, j: nat)
    requires IsRun(ss, acts) && j < |acts|
    ensures Enabled(ss[j], acts[j]) && ss[j + 1] == Apply(ss[j], acts[j])
  {
    assert StepAt(ss, acts, j);
  }

  lemma {:induction false} RunInv(ss: seq<Sys>, acts: seq<Action>, i: nat)
    requires IsRun(ss, acts) && i < |ss|
    ensures Inv(ss[i])
  {
    if i > 0 {
      RunInv(ss, acts, i - 1);
      RunStep(ss, acts, i - 1);
      StepKeeps(ss[i - 1], acts[i - 1]);
    }
  }

  // ---- listeners come and go ---------------------------------------------------------------

  /** An identifier is handed out once: a listener open now that had one before was open before. */
  lemma OpenBefore(s: Sys, a: Action, id: nat)
    requires Enabled(s, a) && id in Apply(s, a).listeners && id < s.counter
    ensures id in s.listeners && s.counter <= Apply(s, a).counter
  {}

  lemma CounterGrows(s: Sys, a: Action)
    requires Enabled(s, a)
    ensures s.counter <= Apply(s, a).counter && s.published <= Apply(s, a).published
  {}

  lemma {:induction false} Monotone(ss: seq<Sys>, acts: seq<Action>, b: nat, i: nat)
    requires IsRun(ss, acts) && b <= i < |ss|
    ensures ss[b].counter <= ss[i].counter && ss[b].published <= ss[i].published
    decreases i
  {
    if b < i {
      Monotone(ss, acts, b, i - 1);
      RunStep(ss, acts, i - 1);
      CounterGrows(ss[i - 1], acts[i - 1]);
    }
  }

  /** What one step does to an updater that has begun. */
  lemma UpdaterStep(s: Sys, a: Action, u: nat)
    requires Enabled(s, a) && u in s.updaters
    ensures u in Apply(s, a).updaters
    ensures
      var up, up' := s.updaters[u], Apply(s, a).updaters[u];
      && (up'.first == up.first || (a == Swap(u) && up'.first == s.published + 1))
      && (LockedOnce(up') ==>
            if LockedOnce(up) then up'.seen == up.seen && up'.first == up.first else up'.seen == s.listeners.Keys)
  {}

  /** A listener registered when the call began and open since is seen in its first round. */
  lemma {:induction false} EarlySeen(ss: seq<Sys>, acts: seq<Action>, b: nat, i: nat, u: nat, id: nat)
    requires IsRun(ss, acts) && b < i < |ss| && acts[b] == BeginUpdate(u)
    requires id in ss[b].listeners && id in ss[i].listeners
    ensures u in ss[i].updaters && (LockedOnce(ss[i].updaters[u]) ==> id in ss[i].updaters[u].seen)
    decreases i
  {
    RunStep(ss, acts, i - 1);
    if i > b + 1 {
      RunInv(ss, acts, b);
      Monotone(ss, acts, b, i - 1);
      OpenBefore(ss[i - 1], acts[i - 1], id);
      EarlySeen(ss, acts, b, i - 1, u, id);
      UpdaterStep(ss[i - 1], acts[i - 1], u);
    }
  }

  /** The map of the call is published after the call began. */
  lemma {:induction false} PublishedInside(ss: seq<Sys>, acts: seq<Action>, b: nat, i: nat, u: nat)
    requires IsRun(ss, acts) && b < i < |ss| && acts[b] == BeginUpdate(u)
    ensures u in ss[i].updaters
    ensures ss[i].updaters[u].phase != Swapping(false) ==> ss[b].published < ss[i].updaters[u].first
    decreases i
  {
    RunStep(ss, acts, i - 1);
    if i > b + 1 {
      PublishedInside(ss, acts, b, i - 1, u);
      Monotone(ss, acts, b, i - 1);
      UpdaterStep(ss[i - 1], acts[i - 1], u);
    }
  }

  // ---- the barrier -----------------------------------------------------------------------

  lemma AtReturn(ss: seq<Sys>, acts: seq<Action>, i: nat, u: nat)
    requires IsRun(ss, acts) && i < |ss| && u in ss[i].updaters && ss[i].updaters[u].phase.Returned?
    ensures
      var s, up := ss[i], ss[i].updaters[u];
      && (forall id <- up.seen :: id in s.listeners ==> Done(s.listeners[id], up.first))
      && (forall id <- up.seenAgain :: id in s.listeners ==> Begun(s.listeners[id], up.first + 1))
      && (forall id <- s.listeners :: id !in up.seen ==> NewSince(s.listeners[id], up.first))
  {
    RunInv(ss, acts, i);
    var up := ss[i].updaters[u];
    assert UpdaterInv(up, ss[i].published, ss[i].counter, ss[i].listeners);
    forall id <- up.seen | id in ss[i].listeners ensures Done(ss[i].listeners[id], up.first) {
      assert Served(up, id, ss[i].listeners[id]);
    }
    forall id <- up.seenAgain | id in ss[i].listeners ensures Begun(ss[i].listeners[id], up.first + 1) {
      assert ServedAgain(up, id, ss[i].listeners[id]);
    }
  }

  /**
   When the double update has returned, an open listener has completed a handler run
   that began after the map was published exactly when it was registered in the
   first round, or its server's constructor has returned, or its loop has
   completed any run at all.
   */
  lemma DoubleUpdateExact(ss: seq<Sys>, acts: seq<Action>, i: nat, u: nat, id: nat)
    requires IsRun(ss, acts) && i < |ss|
    requires u in ss[i].updaters && ss[i].updaters[u].phase.Returned? && id in ss[i].listeners
    ensures
      var l, up := ss[i].listeners[id], ss[i].updaters[u];
      Completed(l, up.first) <==> id in up.seen || l.own.Over? || l.runs != []
  {
    AtReturn(ss, acts, i, u);
    var l, up := ss[i].listeners[id], ss[i].updaters[u];
    if id !in up.seen && l.runs != [] { assert l.runs[0] in l.runs; }
    if id in up.seen { assert Done(l, up.first); }
  }

  /**
   For the caller: every server that was registered when the call began, or whose
   constructor has returned since, has by the end of the call completed a handler run
   that began after the new map was published, unless it was closed.
   */
  lemma DoubleUpdateIsBarrier(ss: seq<Sys>, acts: seq<Action>, b: nat, i: nat, u: nat, id: nat)
    requires IsRun(ss, acts) && b < i < |ss| && acts[b] == BeginUpdate(u)
    requires u in ss[i].updaters && ss[i].updaters[u].phase.Returned? && id in ss[i].listeners
    requires id in ss[b].listeners || ss[i].listeners[id].own.Over?
    ensures ss[b].published < ss[i].updaters[u].first && Completed(ss[i].listeners[id], ss[i].updaters[u].first)
  {
    PublishedInside(ss, acts, b, i, u);
    DoubleUpdateExact(ss, acts, i, u, id);
    if id in ss[b].listeners { EarlySeen(ss, acts, b, i, u, id); }
  }

  /** Every listener of the second round has at least begun such a run in its loop, after the second publication. */
  lemma SecondRoundBegun(ss: seq<Sys>, acts: seq<Action>, i: nat, u: nat, id: nat)
    requires IsRun(ss, acts) && i < |ss|
    requires u in ss[i].updaters && ss[i].updaters[u].phase.Returned?
    requires id in ss[i].updaters[u].seenAgain && id in ss[i].listeners
    ensures Begun(ss[i].listeners[id], ss[i].updaters[u].first + 1)
  {
    AtReturn(ss, acts, i, u);
  }

  /** A server that registers between the two rounds and is still in its constructor when the call returns. */
  const LATE_LISTENER: seq<Action> := [
    BeginUpdate(0), Swap(0), Lock(0), Unlock(0), MakeListener, StartLoop(0), BeginOwn(0),
    Swap(0), Lock(0), Send(0, 0), Unlock(0)]

  function LateState(i: nat): Sys {
    var starting := Listener(Ready, [], Running(1));
    var handling := Listener(Handling(2), [], Running(1));
    match i
    case 0 => Sys(0, 0, map[], map[])
    case 1 => Sys(0, 0, map[], map[0 := Updater(Swapping(false), 0, {}, {})])
    case 2 => Sys(1, 0, map[], map[0 := Updater(Locking(false), 1, {}, {})])
    case 3 => Sys(1, 0, map[], map[0 := Updater(Sending(false, {}), 1, {}, {})])
    case 4 => Sys(1, 0, map[], map[0 := Updater(Swapping(true), 1, {}, {})])
    case 5 => Sys(1, 1, map[0 := Listener(Unstarted, [], NotBegun)], map[0 := Updater(Swapping(true), 1, {}, {})])
    case 6 => Sys(1, 1, map[0 := Listener(Ready, [], NotBegun)], map[0 := Updater(Swapping(true), 1, {}, {})])
    case 7 => Sys(1, 1, map[0 := starting], map[0 := Updater(Swapping(true), 1, {}, {})])
    case 8 => Sys(2, 1, map[0 := starting], map[0 := Updater(Locking(true), 1, {}, {})])
    case 9 => Sys(2, 1, map[0 := starting], map[0 := Updater(Sending(true, {0}), 1, {}, {0})])
    case 10 => Sys(2, 1, map[0 := handling], map[0 := Updater(Sending(true, {}), 1, {}, {0})])
    case _ => Sys(2, 1, map[0 := handling], map[0 := Updater(Returned, 1, {}, {0})])
  }

  lemma LateSteps(i: nat)
    requires i < 11
    ensures Enabled(LateState(i), LATE_LISTENER[i]) && Apply(LateState(i), LATE_LISTENER[i]) == LateState(i + 1)
  {
    assert LateState(2).listeners.Keys == {};
    assert LateState(8).listeners.Keys == {0};
    var todo: set<nat> := {0};
    assert todo - {0} == {};
  }

  /** So the barrier's condition is needed: such a server has completed no run when the call returns. */
  lemma LateListenerUncovered()
    ensures exists ss: seq<Sys>, acts: seq<Action> ::
              && IsRun(ss, acts) && |acts| == 11
              && 0 in ss[11].updaters && ss[11].updaters[0].phase.Returned?
              && 0 in ss[11].listeners && ss[11].listeners[0].own.Running?
              && !Completed(ss[11].listeners[0], ss[11].updaters[0].first)
  {
    var ss := seq(12, i requires 0 <= i < 12 => LateState(i));
    forall i | 0 <= i < 11 ensures StepAt(ss, LATE_LISTENER, i) {
      LateSteps(i);
    }
    assert IsRun(ss, LATE_LISTENER);
  }
}
