/**
 The store a Raft instance persists to, and why handing out copies isolates instances.

 `Copy` shares the saved arrays between two persisters, and saves and reads pass
 arrays to and from callers who may go on writing to them. Saves and reads
 clone; the class `Client` runs any sequence of calls and caller-side writes
 and is proved to behave as if every persister and buffer were a plain value.
 */
module Persister {
  import opened Options

  /** A nil slice has no bytes. */
  function Content(a: array?<Byte>): Bytes
    reads a
  {
    if a == null then [] else a[..]
  }

  datatype Stored = Stored(raftstate: Bytes, snapshot: Bytes)

  method Clone(orig: array?<Byte>) returns (x: array<Byte>)
    ensures fresh(x) && x[..] == Content(orig)
  {
    var n := if orig == null then 0 else orig.Length;
    x := new Byte[n](i => 0);
    for i := 0 to n
      invariant orig != null ==> n == orig.Length
      invariant orig == null ==> n == 0
      invariant forall k :: 0 <= k < i ==> x[k] == orig[k]
    {
      x[i] := orig[i];
    }
  }

  class Store {
    var raftstate: array?<Byte>
    var snapshot: array?<Byte>

    constructor ()
      ensures raftstate == null && snapshot == null
    {
      raftstate, snapshot := null, null;
    }

    ghost function View(): Stored
      reads this, raftstate, snapshot
    {
      Stored(Content(raftstate), Content(snapshot))
    }

    /** The copy shares both arrays with the original. */
    method Copy() returns (np: Store)
      ensures fresh(np) && np.raftstate == raftstate && np.snapshot == snapshot
    {
      np := new Store();
      np.raftstate := raftstate;
      np.snapshot := snapshot;
    }

    method SaveRaftState(state: array?<Byte>)
      modifies this`raftstate
      ensures raftstate != null && fresh(raftstate) && raftstate[..] == old(Content(state))
    {
      raftstate := Clone(state);
    }

    method SaveStateAndSnapshot(state: array?<Byte>, snap: array?<Byte>)
      modifies this
      ensures raftstate != null && fresh(raftstate) && raftstate[..] == old(Content(state))
      ensures snapshot != null && fresh(snapshot) && snapshot[..] == old(Content(snap))
    {
      raftstate := Clone(state);
      snapshot := Clone(snap);
    }

    method ReadRaftState() returns (b: array<Byte>)
      ensures fresh(b) && b[..] == Content(raftstate)
    {
      b := Clone(raftstate);
    }

    method ReadSnapshot() returns (b: array<Byte>)
      ensures fresh(b) && b[..] == Content(snapshot)
    {
      b := Clone(snapshot);
    }

    method RaftStateSize() returns (n: nat)
      ensures n == |View().raftstate|
    {
      return if raftstate == null then 0 else raftstate.Length;
    }

    method SnapshotSize() returns (n: nat)
      ensures n == |View().snapshot|
    {
      return if snapshot == null then 0 else snapshot.Length;
    }
  }

  // ---- the value semantics -------------------------------------------------------

  /** Calls on persister `p`, with buffers named by their position; `Write` is a caller scribbling. */
  datatype Op =
    | Make
    | CopyOf(p: nat)
    | Save(p: nat, state: nat)
    | SaveBoth(p: nat, state: nat, snap: nat)
    | ReadState(p: nat)
    | ReadSnap(p: nat)
    | Allocate(size: nat)
    | Write(buf: nat, at: nat, b: Byte)

  datatype Values = Values(stores: seq<Stored>, buffers: seq<Bytes>)

  predicate Applicable(v: Values, op: Op) {
    match op
    case Make => true
    case CopyOf(p) => p < |v.stores|
    case Save(p, s) => p < |v.stores| && s < |v.buffers|
    case SaveBoth(p, s, t) => p < |v.stores| && s < |v.buffers| && t < |v.buffers|
    case ReadState(p) => p < |v.stores|
    case ReadSnap(p) => p < |v.stores|
    case Allocate(_) => true
    case Write(b, at, _) => b < |v.buffers| && at < |v.buffers[b]|
  }

  function Poke(s: Bytes, at: nat, x: Byte): Bytes
    requires at < |s|
  {
    s[..at] + [x] + s[at + 1..]
  }

  function Perform(v: Values, op: Op): Values
    requires Applicable(v, op)
  {
    match op
    case Make => v.(stores := v.stores + [Stored([], [])])
    case CopyOf(p) => v.(stores := v.stores + [v.stores[p]])
    case Save(p, s) => v.(stores := v.stores[p := v.stores[p].(raftstate := v.buffers[s])])
    case SaveBoth(p, s, t) => v.(stores := v.stores[p := Stored(v.buffers[s], v.buffers[t])])
    case ReadState(p) => v.(buffers := v.buffers + [v.stores[p].raftstate])
    case ReadSnap(p) => v.(buffers := v.buffers + [v.stores[p].snapshot])
    case Allocate(n) => v.(buffers := v.buffers + [seq(n, i => 0)])
    case Write(b, at, x) => v.(buffers := v.buffers[b := Poke(v.buffers[b], at, x)])
  }

  /** A sequence of calls; one that is not applicable is skipped. */
  function PerformAll(v: Values, ops: seq<Op>): Values {
    if ops == [] then v
    else
      var w := PerformAll(v, ops[..|ops| - 1]);
      var op := ops[|ops| - 1];
      if Applicable(w, op) then Perform(w, op) else w
  }

  predicate SavesTo(op: Op, p: nat) {
    (op.Save? || op.SaveBoth?) && op.p == p
  }

  /**
   What one persister returns changes only through its own saves: copies, saves
   to any other persister and writes to any buffer leave it alone.
   */
  lemma {:induction false} OnlyOwnSaves(v: Values, ops: seq<Op>, p: nat)
    requires p < |v.stores|
    requires forall op <- ops :: !SavesTo(op, p)
    ensures p < |PerformAll(v, ops).stores| && PerformAll(v, ops).stores[p] == v.stores[p]
  {
    if ops != [] {
      OnlyOwnSaves(v, ops[..|ops| - 1], p);
      assert !SavesTo(ops[|ops| - 1], p);
    }
  }

  // ---- the heap refines it ---------------------------------------------------------

  class Client {
    var stores: seq<Store>
    var buffers: seq<array<Byte>>
    ghost var model: Values
    /** Arrays some persister holds; no caller holds one of these. */
    ghost var hidden: set<array<Byte>>

    ghost predicate Holds(s: Store)
      reads this, s
    {
      (s.raftstate != null ==> s.raftstate in hidden) && (s.snapshot != null ==> s.snapshot in hidden)
    }

    ghost predicate Valid()
      reads this, stores, buffers, hidden
    {
      && |stores| == |model.stores| && |buffers| == |model.buffers|
      && (forall i, j :: 0 <= i < j < |stores| ==> stores[i] != stores[j])
      && (forall j :: 0 <= j < |buffers| ==> buffers[j] !in hidden)
      && (forall i, j :: 0 <= i < j < |buffers| ==> buffers[i] != buffers[j])
      && (forall i :: 0 <= i < |stores| ==> Holds(stores[i]) && stores[i].View() == model.stores[i])
      && (forall j :: 0 <= j < |buffers| ==> buffers[j][..] == model.buffers[j])
    }

    constructor ()
      ensures Valid() && model == Values([], [])
    {
      stores, buffers, hidden := [], [], {};
      model := Values([], []);
    }

    method AddStore(s: Store)
      requires Valid() && s !in stores && Holds(s)
      modifies this`stores, this`model
      ensures Valid() && stores == old(stores) + [s] && buffers == old(buffers) && hidden == old(hidden)
      ensures model == old(model).(stores := old(model.stores) + [s.View()])
    {
      stores := stores + [s];
      model := model.(stores := model.stores + [s.View()]);
    }

    method AddBuffer(b: array<Byte>)
      requires Valid() && b !in buffers && b !in hidden
      modifies this`buffers, this`model
      ensures Valid() && stores == old(stores) && buffers == old(buffers) + [b] && hidden == old(hidden)
      ensures model == old(model).(buffers := old(model.buffers) + [b[..]])
    {
      buffers := buffers + [b];
      model := model.(buffers := model.buffers + [b[..]]);
    }

    method SaveTo(p: nat, s: nat)
      requires Valid() && p < |stores| && s < |buffers|
      modifies this, stores
      ensures Valid() && stores == old(stores) && buffers == old(buffers)
      ensures model == Perform(old(model), Save(p, s))
    {
      stores[p].SaveRaftState(buffers[s]);
      hidden := hidden + {stores[p].raftstate};
      model := Perform(model, Save(p, s));
    }

    method SaveBothTo(p: nat, s: nat, t: nat)
      requires Valid() && p < |stores| && s < |buffers| && t < |buffers|
      modifies this, stores
      ensures Valid() && stores == old(stores) && buffers == old(buffers)
      ensures model == Perform(old(model), SaveBoth(p, s, t))
    {
      stores[p].SaveStateAndSnapshot(buffers[s], buffers[t]);
      hidden := hidden + {stores[p].raftstate, stores[p].snapshot};
      model := Perform(model, SaveBoth(p, s, t));
    }

    method WriteTo(b: nat, at: nat, x: Byte)
      requires Valid() && b < |buffers| && at < buffers[b].Length
      modifies this`model, buffers
      ensures Valid() && stores == old(stores) && buffers == old(buffers)
      ensures model == Perform(old(model), Write(b, at, x))
    {
      buffers[b][at] := x;
      model := Perform(model, Write(b, at, x));
      assert buffers[b][..] == Poke(old(buffers[b][..]), at, x);
    }

    method CopyFrom(p: nat)
      requires Valid() && p < |stores|
      modifies this
      ensures Valid() && |stores| == |old(stores)| + 1 && old(stores) <= stores && fresh(stores[|old(stores)|])
      ensures buffers == old(buffers) && model == Perform(old(model), CopyOf(p))
    {
      var s := stores[p].Copy();
      AddStore(s);
    }

    method ReadInto(p: nat, snap: bool)
      requires Valid() && p < |stores|
      modifies this
      ensures Valid() && |buffers| == |old(buffers)| + 1 && old(buffers) <= buffers && fresh(buffers[|old(buffers)|])
      ensures stores == old(stores) && model == Perform(old(model), if snap then ReadSnap(p) else ReadState(p))
    {
      var b;
      if snap { b := stores[p].ReadSnapshot(); } else { b := stores[p].ReadRaftState(); }
      AddBuffer(b);
    }

    /** The sizes reported are those of the bytes that reads return. */
    method Sizes(p: nat) returns (state: nat, snap: nat)
      requires Valid() && p < |stores|
      ensures state == |Perform(model, ReadState(p)).buffers[|model.buffers|]|
      ensures snap == |Perform(model, ReadSnap(p)).buffers[|model.buffers|]|
    {
      state := stores[p].RaftStateSize();
      snap := stores[p].SnapshotSize();
    }

    /** One call on real persisters and arrays does what it does on values. */
    method Do(op: Op)
      requires Valid()
      modifies this, stores, buffers
      ensures Valid()
      ensures old(stores) <= stores && old(buffers) <= buffers
      ensures forall i :: |old(stores)| <= i < |stores| ==> fresh(stores[i])
      ensures forall i :: |old(buffers)| <= i < |buffers| ==> fresh(buffers[i])
      ensures model == if Applicable(old(model), op) then Perform(old(model), op) else old(model)
    {
      match op
      case Make =>
        var s := new Store();
        AddStore(s);
      case CopyOf(p) =>
        if p < |stores| { CopyFrom(p); }
      case Save(p, s) =>
        if p < |stores| && s < |buffers| { SaveTo(p, s); }
      case SaveBoth(p, s, t) =>
        if p < |stores| && s < |buffers| && t < |buffers| { SaveBothTo(p, s, t); }
      case ReadState(p) =>
        if p < |stores| { ReadInto(p, false); }
      case ReadSnap(p) =>
        if p < |stores| { ReadInto(p, true); }
      case Allocate(n) =>
        var b := new Byte[n](i => 0);
        AddBuffer(b);
        assert b[..] == seq(n, i => 0);
      case Write(b, at, x) =>
        if b < |buffers| && at < buffers[b].Length { WriteTo(b, at, x); }
    }

    /** Any sequence of calls leaves exactly what it leaves on values, despite the shared arrays. */
    method DoAll(ops: seq<Op>)
      requires Valid()
      modifies this, stores, buffers
      ensures Valid() && old(stores) <= stores
      ensures model == PerformAll(old(model), ops)
    {
      for i := 0 to |ops|
        invariant Valid() && old(stores) <= stores && old(buffers) <= buffers
        invariant forall i :: |old(stores)| <= i < |stores| ==> fresh(stores[i])
        invariant forall i :: |old(buffers)| <= i < |buffers| ==> fresh(buffers[i])
        invariant model == PerformAll(old(model), ops[..i])
      {
        Do(ops[i]);
        assert ops[..i + 1][..i] == ops[..i];
      }
      assert ops[..|ops|] == ops;
    }
  }
}
