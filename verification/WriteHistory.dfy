/**
 Histories of write intervals on one key, independent of the checker.

 A history lists the begins and completions of writes in the order they took
 effect, a completion with the times at which the writer started and got its
 answer. It defines what the checker's counters stand for: which writes overlap,
 which reads had a quiet interval, and which values a later write replaced.
 */
module WriteHistory {
  datatype Event =
    | Begin(id: nat)
    | Done(id: nat, value: string, failed: bool, start: int, end: int)

  type History = seq<Event>

  predicate BeganIn(h: History, id: nat) {
    Begin(id) in h
  }

  predicate DoneIn(h: History, id: nat) {
    exists e <- h :: e.Done? && e.id == id
  }

  /** Every write begins once, completes at most once, and begins before it completes. */
  ghost predicate WellFormed(h: History) {
    && (forall i, j :: 0 <= i < j < |h| && h[i].Begin? && h[j].Begin? ==> h[i].id != h[j].id)
    && (forall i, j :: 0 <= i < j < |h| && h[i].Done? && h[j].Done? ==> h[i].id != h[j].id)
    && (forall j :: 0 <= j < |h| && h[j].Done? ==> BeganIn(h[..j], h[j].id))
  }

  function DoneCount(h: History): nat {
    if h == [] then 0
    else DoneCount(h[..|h| - 1]) + (if h[|h| - 1].Done? then 1 else 0)
  }

  function PendingIds(h: History): set<nat> {
    set e | e in h && e.Begin? && !DoneIn(h, e.id) :: e.id
  }

  /** Write `u` was under way at some moment since the write that began at `p`. */
  ghost predicate Overlaps(h: History, p: nat, u: nat)
    requires p < |h|
  {
    u != h[p].id && BeganIn(h, u) && !DoneIn(h[..p], u)
  }

  ghost predicate Alone(h: History, p: nat)
    requires p < |h|
  {
    forall u :: !Overlaps(h, p, u)
  }

  /** No write was under way at any moment since position `p`. */
  ghost predicate QuietSince(h: History, p: nat)
    requires p <= |h|
  {
    forall u :: BeganIn(h, u) ==> DoneIn(h[..p], u)
  }

  /** The completion at `j` is a successful write that no other write overlapped. */
  ghost predicate CleanAt(h: History, j: nat)
    requires j < |h|
  {
    h[j].Done? && !h[j].failed && exists p :: 0 <= p < j && h[p] == Begin(h[j].id) && Alone(h[..j], p)
  }

  ghost predicate Superseded(h: History, i: nat) {
    exists j :: i < j < |h| && CleanAt(h, j)
  }

  /** Values of completed writes after which no clean write completed. */
  ghost function Live(h: History): set<string> {
    set i | 0 <= i < |h| && h[i].Done? && !Superseded(h, i) :: h[i].value
  }

  /** Values of completed writes that a clean write followed. */
  ghost function Dead(h: History): set<string> {
    set i | 0 <= i < |h| && h[i].Done? && Superseded(h, i) :: h[i].value
  }

  /** Some completed write had this value. */
  predicate WrittenIn(h: History, value: string) {
    exists e <- h :: e.Done? && e.value == value
  }

  /** No value is written twice. */
  predicate UniqueValues(h: History) {
    forall i, j :: 0 <= i < j < |h| && h[i].Done? && h[j].Done? ==> h[i].value != h[j].value
  }

  /** The completion `e` is of a value that no clean write followed. */
  ghost predicate LiveWrite(h: History, e: Event) {
    e in h && e.Done? && e.value in Live(h)
  }

  /** Every completed write is live or dead. */
  lemma LiveOrDead(h: History, value: string)
    ensures WrittenIn(h, value) <==> value in Live(h) + Dead(h)
  {
    if WrittenIn(h, value) {
      var e :| e in h && e.Done? && e.value == value;
      var i :| 0 <= i < |h| && h[i] == e;
      assert Superseded(h, i) ==> value in Dead(h);
    }
  }

  lemma UniqueAppend(h: History, e: Event)
    requires UniqueValues(h) && (e.Done? ==> !WrittenIn(h, e.value))
    ensures UniqueValues(h + [e])
  {
    var g := h + [e];
    forall i, j | 0 <= i < j < |g| && g[i].Done? && g[j].Done? ensures g[i].value != g[j].value {
      if j == |h| { assert h[i] in h; }
    }
  }

  lemma SameWrite(h: History, d: Event, e: Event)
    requires UniqueValues(h) && d in h && e in h && d.Done? && e.Done? && d.value == e.value
    ensures d == e
  {
    var i :| 0 <= i < |h| && h[i] == d;
    var j :| 0 <= j < |h| && h[j] == e;
  }

  // ---- counting -------------------------------------------------------------

  lemma {:induction false} DoneCountPrefix(h: History, p: nat)
    requires p <= |h|
    ensures DoneCount(h[..p]) <= DoneCount(h)
    ensures DoneCount(h[..p]) == DoneCount(h) <==> forall i :: p <= i < |h| ==> !h[i].Done?
  {
    if p < |h| {
      var front := h[..|h| - 1];
      assert front[..p] == h[..p];
      DoneCountPrefix(front, p);
      assert forall i :: p <= i < |front| ==> front[i] == h[i];
    } else {
      assert h[..p] == h;
    }
  }

  lemma DoneCountAppend(h: History, e: Event)
    ensures DoneCount(h + [e]) == DoneCount(h) + (if e.Done? then 1 else 0)
  {
    assert (h + [e])[..|h|] == h;
  }

  lemma DoneIndex(h: History, id: nat) returns (k: nat)
    requires DoneIn(h, id)
    ensures k < |h| && h[k].Done? && h[k].id == id
  {
    var e :| e in h && e.Done? && e.id == id;
    k :| k < |h| && h[k] == e;
  }

  /** A write that is done in the whole history but not before `p` was done at `p` or later. */
  lemma DoneLater(h: History, p: nat, id: nat)
    requires p <= |h| && DoneIn(h, id) && !DoneIn(h[..p], id)
    ensures exists k :: p <= k < |h| && h[k].Done? && h[k].id == id
  {
    var k := DoneIndex(h, id);
  }

  /** A completion at `k` of a write that was not done earlier. */
  lemma NotDoneBefore(h: History, p: nat, k: nat)
    requires WellFormed(h) && p <= k < |h| && h[k].Done?
    ensures BeganIn(h, h[k].id) && !DoneIn(h[..p], h[k].id)
  {
    assert Begin(h[k].id) in h[..k];
    assert forall i :: 0 <= i < p && h[i].Done? ==> h[i].id != h[k].id;
  }

  // ---- the counters decide overlap exactly ------------------------------------

  lemma AloneExact(h: History, p: nat)
    requires WellFormed(h) && p < |h| && h[p].Begin? && !DoneIn(h, h[p].id)
    ensures Alone(h, p) <==> DoneCount(h[..p]) == DoneCount(h) && |PendingIds(h)| == 1
  {
    var w := h[p].id;
    DoneCountPrefix(h, p);
    assert w in PendingIds(h);
    if Alone(h, p) {
      forall k | p <= k < |h| ensures !h[k].Done? {
        if h[k].Done? {
          NotDoneBefore(h, p, k);
          assert Overlaps(h, p, h[k].id);
        }
      }
      forall u | u in PendingIds(h) ensures u == w {
        assert DoneIn(h[..p], u) ==> DoneIn(h, u);
        assert !Overlaps(h, p, u);
      }
      assert PendingIds(h) == {w};
    }
    if DoneCount(h[..p]) == DoneCount(h) && |PendingIds(h)| == 1 {
      forall u ensures !Overlaps(h, p, u) {
        if Overlaps(h, p, u) {
          if DoneIn(h, u) {
            DoneLater(h, p, u);
          } else {
            assert Begin(u) in h;
            assert u in PendingIds(h);
            assert {u, w} <= PendingIds(h);
            Grows({u, w}, PendingIds(h));
          }
        }
      }
    }
  }

  lemma Grows<T>(a: set<T>, b: set<T>)
    requires a <= b
    ensures |a| <= |b|
  {
    assert b == a + (b - a);
  }

  lemma QuietExact(h: History, p: nat)
    requires WellFormed(h) && p <= |h|
    ensures QuietSince(h, p) <==>
              DoneCount(h[..p]) == DoneCount(h) && PendingIds(h[..p]) == {} && PendingIds(h) == {}
  {
    DoneCountPrefix(h, p);
    if QuietSince(h, p) {
      forall k | p <= k < |h| ensures !h[k].Done? {
        if h[k].Done? { NotDoneBefore(h, p, k); }
      }
      forall u | BeganIn(h[..p], u) ensures u !in PendingIds(h[..p]) {
        assert BeganIn(h, u);
      }
      forall u | BeganIn(h, u) ensures u !in PendingIds(h) {
        var k := DoneIndex(h[..p], u);
        assert h[k] in h;
      }
    }
    if DoneCount(h[..p]) == DoneCount(h) && PendingIds(h) == {} {
      forall u | BeganIn(h, u) ensures DoneIn(h[..p], u) {
        assert !DoneIn(h, u) ==> Begin(u).id in PendingIds(h);
        if !DoneIn(h[..p], u) { DoneLater(h, p, u); }
      }
    }
  }

  // ---- appending an event -----------------------------------------------------

  lemma WellFormedAppend(h: History, e: Event)
    requires WellFormed(h)
    requires e.Begin? ==> !BeganIn(h, e.id)
    requires e.Done? ==> BeganIn(h, e.id) && !DoneIn(h, e.id)
    ensures WellFormed(h + [e])
  {
    var g := h + [e];
    forall j | 0 <= j < |g| && g[j].Done? ensures BeganIn(g[..j], g[j].id) {
      if j < |h| { assert g[..j] == h[..j]; } else { assert g[..j] == h; }
    }
    forall i, j | 0 <= i < j < |g| && g[i].Begin? && g[j].Begin? ensures g[i].id != g[j].id {
      if j == |h| { assert h[i] in h; }
    }
  }

  lemma PendingAppend(h: History, e: Event)
    requires e.Begin? ==> !DoneIn(h, e.id)
    ensures PendingIds(h + [e]) == if e.Begin? then PendingIds(h) + {e.id} else PendingIds(h) - {e.id}
  {
    var g := h + [e];
    assert e in g;
    assert forall x :: x in g <==> x in h || x == e;
    forall id ensures DoneIn(g, id) <==> DoneIn(h, id) || (e.Done? && e.id == id) {
      if DoneIn(g, id) { var k := DoneIndex(g, id); }
      if DoneIn(h, id) { var k := DoneIndex(h, id); assert h[k] in g; }
    }
  }

  lemma CleanStable(h: History, e: Event, j: nat)
    requires j < |h|
    ensures CleanAt(h + [e], j) <==> CleanAt(h, j)
  {
    assert (h + [e])[..j] == h[..j];
    assert (h + [e])[j] == h[j];
    assert forall p :: 0 <= p < j ==> (h + [e])[p] == h[p];
  }

  lemma SupersededAppend(h: History, e: Event, i: nat)
    requires i < |h|
    ensures Superseded(h + [e], i) <==> Superseded(h, i) || CleanAt(h + [e], |h|)
  {
    var g := h + [e];
    forall j | i < j < |h| ensures CleanAt(g, j) <==> CleanAt(h, j) { CleanStable(h, e, j); }
    assert Superseded(g, i) <==> exists j :: i < j < |g| && CleanAt(g, j);
    if CleanAt(g, |h|) { assert i < |h| < |g|; }
    if Superseded(h, i) {
      var j :| i < j < |h| && CleanAt(h, j);
      assert CleanAt(g, j);
    }
  }

  /** How one more event changes the live and the dead values. */
  lemma LiveAppend(h: History, e: Event)
    ensures
      var clean := CleanAt(h + [e], |h|);
      && Live(h + [e]) == (if clean then {} else Live(h)) + (if e.Done? then {e.value} else {})
      && Dead(h + [e]) == if clean then Dead(h) + Live(h) else Dead(h)
  {
    var g := h + [e];
    forall i | 0 <= i < |h| ensures g[i] == h[i] && (Superseded(g, i) <==> Superseded(h, i) || CleanAt(g, |h|)) {
      SupersededAppend(h, e, i);
    }
    assert !Superseded(g, |h|);
    assert g[|h|] == e;
  }

  lemma LiveAppendDone(h: History, e: Event)
    requires e.Done?
    ensures
      if CleanAt(h + [e], |h|)
      then Live(h + [e]) == {e.value} && Dead(h + [e]) == Dead(h) + Live(h)
      else Live(h + [e]) == Live(h) + {e.value} && Dead(h + [e]) == Dead(h)
  {
    LiveAppend(h, e);
  }

  lemma LiveAppendBegin(h: History, id: nat)
    ensures Live(h + [Begin(id)]) == Live(h) && Dead(h + [Begin(id)]) == Dead(h)
  {
    LiveAppend(h, Begin(id));
  }

  lemma NeverDone(h: History, id: nat)
    requires WellFormed(h) && !BeganIn(h, id)
    ensures !DoneIn(h, id)
  {
    forall j | 0 <= j < |h| && h[j].Done? ensures h[j].id != id {
      assert Begin(h[j].id) in h[..j];
    }
  }

  lemma PrefixesKept(h: History, e: Event)
    ensures forall p :: 0 <= p <= |h| ==> (h + [e])[..p] == h[..p]
  {}
}
