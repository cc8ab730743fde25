/**
 Which network ends are enabled, as a value.

 Server i owns one end per server j. Connecting and disconnecting a server turns
 the ends to and from it on and off; restarting one gives it new ends.
 */
module Wiring {
  import opened Options

  datatype Wires = Wires(connected: seq<bool>, endnames: seq<Option<seq<string>>>, enabled: map<string, bool>)

  predicate WellSized(w: Wires, n: nat) {
    && |w.connected| == n && |w.endnames| == n
    && forall i :: 0 <= i < n && w.endnames[i].Some? ==> |w.endnames[i].value| == n
  }

  /** Ends from `i` to the servers below `upto`, only the connected ones if asked. */
  function Outgoing(w: Wires, i: nat, upto: nat, all: bool): set<string>
    requires WellSized(w, |w.connected|) && i < |w.connected| && upto <= |w.connected|
  {
    set j | 0 <= j < upto && w.endnames[i].Some? && (all || w.connected[j]) :: w.endnames[i].value[j]
  }

  /** Ends to `i` from the servers below `upto`. */
  function Incoming(w: Wires, i: nat, upto: nat, all: bool): set<string>
    requires WellSized(w, |w.connected|) && i < |w.connected| && upto <= |w.connected|
  {
    set j | 0 <= j < upto && w.endnames[j].Some? && (all || w.connected[j]) :: w.endnames[j].value[i]
  }

  function NameSet(names: seq<string>): set<string> {
    set e | e in names
  }

  function SetAll(enabled: map<string, bool>, names: set<string>, on: bool): map<string, bool> {
    map e | e in enabled.Keys + names :: if e in names then on else enabled[e]
  }

  lemma SetAllTwice(enabled: map<string, bool>, a: set<string>, b: set<string>, on: bool)
    ensures SetAll(SetAll(enabled, a, on), b, on) == SetAll(enabled, a + b, on)
  {}

  lemma SetAllOne(enabled: map<string, bool>, a: set<string>, e: string, on: bool)
    ensures SetAll(enabled, a, on)[e := on] == SetAll(enabled, a + {e}, on)
  {}

  lemma OutgoingStep(w: Wires, i: nat, j: nat, all: bool)
    requires WellSized(w, |w.connected|) && i < |w.connected| && j < |w.connected|
    ensures Outgoing(w, i, j + 1, all) == Outgoing(w, i, j, all) +
              (if w.endnames[i].Some? && (all || w.connected[j]) then {w.endnames[i].value[j]} else {})
  {}

  lemma IncomingStep(w: Wires, i: nat, j: nat, all: bool)
    requires WellSized(w, |w.connected|) && i < |w.connected| && j < |w.connected|
    ensures Incoming(w, i, j + 1, all) == Incoming(w, i, j, all) +
              (if w.endnames[j].Some? && (all || w.connected[j]) then {w.endnames[j].value[i]} else {})
  {}

  function ConnectOp(w: Wires, i: nat): Wires
    requires WellSized(w, |w.connected|) && i < |w.connected|
  {
    var v := w.(connected := w.connected[i := true]);
    v.(enabled := SetAll(w.enabled, Outgoing(v, i, |v.connected|, false) + Incoming(v, i, |v.connected|, false), true))
  }

  function DisconnectOp(w: Wires, i: nat): Wires
    requires WellSized(w, |w.connected|) && i < |w.connected|
  {
    var v := w.(connected := w.connected[i := false]);
    v.(enabled := SetAll(w.enabled, Outgoing(v, i, |v.connected|, true) + Incoming(v, i, |v.connected|, true), false))
  }

  /** A restart first crashes the server, then gives it ends under new names. */
  function StartOp(w: Wires, i: nat, names: seq<string>): Wires
    requires WellSized(w, |w.connected|) && i < |w.connected|
  {
    var v := DisconnectOp(w, i);
    v.(endnames := v.endnames[i := Some(names)], enabled := SetAll(v.enabled, NameSet(names), false))
  }

  // ---- the invariant ----------------------------------------------------------------

  predicate IsEnd(w: Wires, i: int, j: int) {
    0 <= i < |w.endnames| && w.endnames[i].Some? && 0 <= j < |w.endnames[i].value|
  }

  function EndOf(w: Wires, i: int, j: int): string
    requires IsEnd(w, i, j)
  {
    w.endnames[i].value[j]
  }

  /** The end belongs to some server's present instance. */
  ghost predicate Current(w: Wires, e: string) {
    exists i, j :: IsEnd(w, i, j) && EndOf(w, i, j) == e
  }

  ghost predicate Matrix(w: Wires) {
    forall i, j :: IsEnd(w, i, j) && j < |w.connected| && i < |w.connected| ==>
      EndOf(w, i, j) in w.enabled && (w.enabled[EndOf(w, i, j)] <==> w.connected[i] && w.connected[j])
  }

  ghost predicate DistinctEnds(w: Wires) {
    forall i, j, k, l :: IsEnd(w, i, j) && IsEnd(w, k, l) && EndOf(w, i, j) == EndOf(w, k, l) ==> i == k && j == l
  }

  ghost predicate RetiredDisabled(w: Wires) {
    forall e <- w.enabled :: Current(w, e) || !w.enabled[e]
  }

  ghost predicate WiresInv(w: Wires, n: nat) {
    && WellSized(w, n)
    && (forall i :: 0 <= i < n && w.connected[i] ==> w.endnames[i].Some?)
    && DistinctEnds(w)
    && Matrix(w)
    && RetiredDisabled(w)
  }

  predicate FreshNames(w: Wires, names: seq<string>) {
    && |names| == |w.connected|
    && (forall e <- names :: e !in w.enabled)
    && (forall i, j :: 0 <= i < j < |names| ==> names[i] != names[j])
  }

  lemma DisconnectKeeps(w: Wires, i: nat, n: nat)
    requires WiresInv(w, n) && i < n
    ensures WiresInv(DisconnectOp(w, i), n)
  {
    var v := DisconnectOp(w, i);
    SameEnds(w, v);
    forall k, l | IsEnd(v, k, l) && k < n && l < n
      ensures EndOf(v, k, l) in v.enabled && (v.enabled[EndOf(v, k, l)] <==> v.connected[k] && v.connected[l])
    {
      assert EndOf(w, k, l) in w.enabled;
      if k == i || l == i {
        assert EndOf(w, k, l) in Outgoing(v, i, n, true) + Incoming(v, i, n, true);
      } else {
        NotTouched(v, i, k, l, n, true);
      }
    }
  }

  lemma NotTouched(w: Wires, i: nat, k: nat, l: nat, n: nat, all: bool)
    requires WellSized(w, n) && DistinctEnds(w) && i < n && IsEnd(w, k, l) && k != i && l != i
    ensures EndOf(w, k, l) !in Outgoing(w, i, n, all) + Incoming(w, i, n, all)
  {
    forall j | 0 <= j < n && w.endnames[i].Some? ensures w.endnames[i].value[j] != EndOf(w, k, l) {
      assert IsEnd(w, i, j) && EndOf(w, i, j) == w.endnames[i].value[j];
    }
    forall j | 0 <= j < n && w.endnames[j].Some? ensures w.endnames[j].value[i] != EndOf(w, k, l) {
      assert IsEnd(w, j, i) && EndOf(w, j, i) == w.endnames[j].value[i];
    }
  }

  lemma SameEnds(w: Wires, v: Wires)
    requires v.endnames == w.endnames
    ensures forall k, l :: IsEnd(v, k, l) <==> IsEnd(w, k, l)
    ensures forall k, l :: IsEnd(w, k, l) ==> EndOf(v, k, l) == EndOf(w, k, l)
    ensures forall e :: Current(v, e) <==> Current(w, e)
    ensures DistinctEnds(v) <==> DistinctEnds(w)
  {
    forall e ensures Current(v, e) <==> Current(w, e) {
      if Current(w, e) {
        var k, l :| IsEnd(w, k, l) && EndOf(w, k, l) == e;
        assert IsEnd(v, k, l) && EndOf(v, k, l) == e;
      }
      if Current(v, e) {
        var k, l :| IsEnd(v, k, l) && EndOf(v, k, l) == e;
        assert IsEnd(w, k, l) && EndOf(w, k, l) == e;
      }
    }
  }

  lemma ConnectMatrix(w: Wires, i: nat, n: nat)
    requires WiresInv(w, n) && i < n && w.endnames[i].Some?
    ensures Matrix(ConnectOp(w, i)) && DistinctEnds(ConnectOp(w, i))
  {
    var v := ConnectOp(w, i);
    SameEnds(w, v);
    forall k, l | IsEnd(v, k, l) && k < n && l < n
      ensures EndOf(v, k, l) in v.enabled && (v.enabled[EndOf(v, k, l)] <==> v.connected[k] && v.connected[l])
    {
      assert EndOf(w, k, l) in w.enabled;
      ConnectTouches(v, i, k, l, n);
    }
  }

  lemma TouchedCurrent(v: Wires, i: nat, n: nat, all: bool, e: string)
    requires WellSized(v, n) && i < n && e in Outgoing(v, i, n, all) + Incoming(v, i, n, all)
    ensures Current(v, e)
  {
    if e in Outgoing(v, i, n, all) {
      var j :| 0 <= j < n && v.endnames[i].value[j] == e;
      assert IsEnd(v, i, j) && EndOf(v, i, j) == e;
    } else {
      var j :| 0 <= j < n && v.endnames[j].Some? && v.endnames[j].value[i] == e;
      assert IsEnd(v, j, i) && EndOf(v, j, i) == e;
    }
  }

  lemma ConnectKeeps(w: Wires, i: nat, n: nat)
    requires WiresInv(w, n) && i < n && w.endnames[i].Some?
    ensures WiresInv(ConnectOp(w, i), n)
  {
    var v := ConnectOp(w, i);
    ConnectMatrix(w, i, n);
    SameEnds(w, v);
    forall e <- v.enabled ensures Current(v, e) || !v.enabled[e] {
      if e in Outgoing(v, i, n, false) + Incoming(v, i, n, false) { TouchedCurrent(v, i, n, false, e); }
    }
  }

  /** Connecting i touches exactly the ends between i and connected servers. */
  lemma ConnectTouches(v: Wires, i: nat, k: nat, l: nat, n: nat)
    requires WellSized(v, n) && DistinctEnds(v) && i < n && v.connected[i] && IsEnd(v, k, l)
    ensures EndOf(v, k, l) in Outgoing(v, i, n, false) + Incoming(v, i, n, false)
            <==> (k == i && v.connected[l]) || (l == i && v.connected[k])
  {
    if k != i && l != i { NotTouched(v, i, k, l, n, false); }
    if EndOf(v, k, l) in Outgoing(v, i, n, false) {
      var j :| 0 <= j < n && v.connected[j] && v.endnames[i].value[j] == EndOf(v, k, l);
      assert IsEnd(v, i, j) && EndOf(v, i, j) == EndOf(v, k, l);
    }
    if EndOf(v, k, l) in Incoming(v, i, n, false) {
      var j :| 0 <= j < n && v.connected[j] && v.endnames[j].Some? && v.endnames[j].value[i] == EndOf(v, k, l);
      assert IsEnd(v, j, i) && EndOf(v, j, i) == EndOf(v, k, l);
    }
  }

  lemma StartKeeps(w: Wires, i: nat, names: seq<string>, n: nat)
    requires WiresInv(w, n) && i < n && FreshNames(w, names)
    ensures WiresInv(StartOp(w, i, names), n)
  {
    DisconnectKeeps(w, i, n);
    var v := DisconnectOp(w, i);
    assert v.enabled.Keys == w.enabled.Keys by { DisconnectTouchesKnown(w, i, n); }
    Renamed(v, i, names, n);
  }

  lemma DisconnectTouchesKnown(w: Wires, i: nat, n: nat)
    requires WiresInv(w, n) && i < n
    ensures DisconnectOp(w, i).enabled.Keys == w.enabled.Keys
  {
    var v := w.(connected := w.connected[i := false]);
    SameEnds(w, v);
    forall e | e in Outgoing(v, i, n, true) + Incoming(v, i, n, true) ensures e in w.enabled {
      TouchedCurrent(v, i, n, true, e);
    }
  }

  lemma ConnectTouchesKnown(w: Wires, i: nat, n: nat)
    requires WiresInv(w, n) && i < n && w.endnames[i].Some?
    ensures ConnectOp(w, i).enabled.Keys == w.enabled.Keys
  {
    var v := w.(connected := w.connected[i := true]);
    SameEnds(w, v);
    forall e | e in Outgoing(v, i, n, false) + Incoming(v, i, n, false) ensures e in w.enabled {
      TouchedCurrent(v, i, n, false, e);
    }
  }

  /** New disabled names for a disconnected server. */
  lemma Renamed(w: Wires, i: nat, names: seq<string>, n: nat)
    requires WiresInv(w, n) && i < n && FreshNames(w, names) && !w.connected[i]
    ensures WiresInv(w.(endnames := w.endnames[i := Some(names)],
                        enabled := SetAll(w.enabled, NameSet(names), false)), n)
  {
    var v := w.(endnames := w.endnames[i := Some(names)], enabled := SetAll(w.enabled, NameSet(names), false));
    forall k, l | IsEnd(v, k, l)
      ensures if k == i then EndOf(v, k, l) == names[l] else IsEnd(w, k, l) && EndOf(v, k, l) == EndOf(w, k, l)
    {}
    forall k, l | IsEnd(v, k, l) && k < n && l < n
      ensures EndOf(v, k, l) in v.enabled && (v.enabled[EndOf(v, k, l)] <==> v.connected[k] && v.connected[l])
    {
      if k != i { assert EndOf(w, k, l) in w.enabled; }
    }
    forall a, b, k, l | IsEnd(v, a, b) && IsEnd(v, k, l) && EndOf(v, a, b) == EndOf(v, k, l)
      ensures a == k && b == l
    {
      if a != i { assert EndOf(w, a, b) in w.enabled; }
      if k != i { assert EndOf(w, k, l) in w.enabled; }
    }
    forall e <- v.enabled ensures Current(v, e) || !v.enabled[e] {
      if e in w.enabled && w.enabled[e] {
        var k, l :| IsEnd(w, k, l) && EndOf(w, k, l) == e;
        assert k != i;
        assert IsEnd(v, k, l) && EndOf(v, k, l) == e;
      }
    }
  }

  // ---- every run of the harness ---------------------------------------------------------

  datatype Op =
    | Start(i: nat, names: seq<string>)
    | Crash(i: nat)
    | Connect(i: nat)
    | Disconnect(i: nat)

  predicate Admissible(w: Wires, op: Op) {
    && op.i < |w.connected| && op.i < |w.endnames|
    && match op
       case Start(_, names) => FreshNames(w, names)
       case Connect(i) => w.endnames[i].Some?
       case _ => true
  }

  function Perform(w: Wires, op: Op): Wires
    requires WellSized(w, |w.connected|) && Admissible(w, op)
  {
    match op
    case Start(i, names) => StartOp(w, i, names)
    case Crash(i) => DisconnectOp(w, i)
    case Connect(i) => ConnectOp(w, i)
    case Disconnect(i) => DisconnectOp(w, i)
  }

  ghost predicate IsRun(n: nat, ws: seq<Wires>, ops: seq<Op>) {
    && |ws| == |ops| + 1
    && ws[0] == Wires(seq(n, i => false), seq(n, i => None), map[])
    && forall k :: 0 <= k < |ops| ==>
         WellSized(ws[k], |ws[k].connected|) && Admissible(ws[k], ops[k]) && ws[k + 1] == Perform(ws[k], ops[k])
  }

  /** Which servers are on the net after a call, and which ends they have. */
  lemma ConnectedAfter(w: Wires, op: Op)
    requires WellSized(w, |w.connected|) && Admissible(w, op)
    ensures Perform(w, op).connected == w.connected[op.i := op.Connect?]
    ensures Perform(w, op).endnames == if op.Start? then w.endnames[op.i := Some(op.names)] else w.endnames
  {}

  lemma PerformKeeps(w: Wires, op: Op, n: nat)
    requires WiresInv(w, n) && Admissible(w, op)
    ensures WiresInv(Perform(w, op), n)
  {
    match op
    case Start(i, names) => StartKeeps(w, i, names, n);
    case Connect(i) => ConnectKeeps(w, i, n);
    case Crash(i) => DisconnectKeeps(w, i, n);
    case Disconnect(i) => DisconnectKeeps(w, i, n);
  }

  /** After any sequence of calls every present end is enabled iff both its servers are connected. */
  lemma {:induction false} MatrixAlways(n: nat, ws: seq<Wires>, ops: seq<Op>, k: nat)
    requires IsRun(n, ws, ops) && k < |ws|
    ensures WiresInv(ws[k], n)
  {
    if k > 0 {
      MatrixAlways(n, ws, ops, k - 1);
      PerformKeeps(ws[k - 1], ops[k - 1], n);
    }
  }

  ghost predicate Retired(w: Wires, e: string) {
    e in w.enabled && !Current(w, e)
  }

  /** An end that exists and belongs to an instance after a call belonged to it before. */
  lemma CurrentBefore(w: Wires, op: Op, n: nat, e: string)
    requires WiresInv(w, n) && Admissible(w, op) && e in w.enabled && Current(Perform(w, op), e)
    ensures Current(w, e)
  {
    var v := Perform(w, op);
    if op.Start? {
      forall l | IsEnd(v, op.i, l) ensures EndOf(v, op.i, l) != e {
        assert EndOf(v, op.i, l) in op.names;
      }
    }
    var k, l :| IsEnd(v, k, l) && EndOf(v, k, l) == e;
    assert IsEnd(w, k, l) && EndOf(w, k, l) == e;
  }

  lemma PerformKeepsRetired(w: Wires, op: Op, n: nat, e: string)
    requires WiresInv(w, n) && Admissible(w, op) && Retired(w, e)
    ensures Retired(Perform(w, op), e)
  {
    if Current(Perform(w, op), e) { CurrentBefore(w, op, n, e); }
  }

  /** A restart retires the ends of the instance it replaces. */
  lemma StartRetires(w: Wires, i: nat, names: seq<string>, n: nat, j: nat)
    requires WiresInv(w, n) && i < n && FreshNames(w, names) && IsEnd(w, i, j)
    ensures Retired(StartOp(w, i, names), EndOf(w, i, j))
  {
    var v := StartOp(w, i, names);
    var e := EndOf(w, i, j);
    assert e in w.enabled;
    forall k, l | IsEnd(v, k, l) ensures EndOf(v, k, l) != e {
      if k == i {
        assert EndOf(v, k, l) in names;
      } else {
        assert IsEnd(w, k, l) && EndOf(w, k, l) == EndOf(v, k, l);
      }
    }
  }

  lemma {:induction false} RetiredStays(n: nat, ws: seq<Wires>, ops: seq<Op>, a: nat, b: nat, e: string)
    requires IsRun(n, ws, ops) && a <= b < |ws| && Retired(ws[a], e)
    ensures Retired(ws[b], e)
    decreases b
  {
    if a < b {
      RetiredStays(n, ws, ops, a, b - 1, e);
      MatrixAlways(n, ws, ops, b - 1);
      PerformKeepsRetired(ws[b - 1], ops[b - 1], n, e);
    }
  }

  /** An end of a superseded instance is never enabled again. */
  lemma RetiredForever(n: nat, ws: seq<Wires>, ops: seq<Op>, a: nat, b: nat, e: string)
    requires IsRun(n, ws, ops) && a <= b < |ws| && Retired(ws[a], e)
    ensures Retired(ws[b], e) && !ws[b].enabled[e]
  {
    RetiredStays(n, ws, ops, a, b, e);
    MatrixAlways(n, ws, ops, b);
  }
}
