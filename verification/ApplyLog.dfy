/**
 The harness's online check of what servers apply.

 Messages arrive one at a time, tagged with the server that applied them, in any
 interleaving and with any amount of re-application after restarts. The check
 looks only at the logs gathered so far; `SafeTrace` states what it is for in
 terms of the whole trace.
 */
module ApplyLog {
  import opened Options

  type Command = string

  /** One applied entry; messages that are not valid commands never reach the check. */
  datatype Applied = Applied(server: nat, index: int, command: Command)

  type Log = map<int, Command>

  datatype Checked = Checked(logs: seq<Log>, maxIndex: int)

  /** Some server has recorded another command for the index. */
  predicate Conflicts(logs: seq<Log>, index: int, command: Command) {
    exists j :: 0 <= j < |logs| && index in logs[j] && logs[j][index] != command
  }

  predicate OutOfOrder(log: Log, index: int) {
    index > 1 && index - 1 !in log
  }

  /** The applier's verdict on one message. */
  predicate Complains(c: Checked, m: Applied)
    requires m.server < |c.logs|
  {
    Conflicts(c.logs, m.index, m.command) || OutOfOrder(c.logs[m.server], m.index)
  }

  function Record(c: Checked, m: Applied): Checked
    requires m.server < |c.logs|
  {
    Checked(c.logs[m.server := c.logs[m.server][m.index := m.command]],
            if m.index > c.maxIndex then m.index else c.maxIndex)
  }

  class LogChecker {
    var logs: seq<Log>
    var maxIndex: int

    ghost function View(): Checked
      reads this
    {
      Checked(logs, maxIndex)
    }

    constructor (n: nat)
      ensures View() == Checked(seq(n, i => map[]), 0)
    {
      logs := seq(n, i => map[]);
      maxIndex := 0;
    }

    /** Records the message; reports a conflict found among the logs, and whether the index before was there. */
    method CheckLogs(m: Applied) returns (conflict: bool, prevOk: bool)
      requires m.server < |logs|
      modifies this
      ensures View() == Record(old(View()), m)
      ensures logs == old(logs)[m.server := old(logs[m.server])[m.index := m.command]]
      ensures maxIndex == if m.index > old(maxIndex) then m.index else old(maxIndex)
      ensures conflict == Conflicts(old(logs), m.index, m.command)
      ensures conflict <==> exists j :: 0 <= j < |old(logs)| && m.index in old(logs)[j] &&
                                        old(logs)[j][m.index] != m.command
      ensures prevOk == (m.index - 1 in old(logs[m.server]))
    {
      conflict := false;
      for j := 0 to |logs|
        invariant conflict <==> exists k :: 0 <= k < j && m.index in logs[k] && logs[k][m.index] != m.command
      {
        if m.index in logs[j] && logs[j][m.index] != m.command { conflict := true; }
      }
      prevOk := m.index - 1 in logs[m.server];
      logs := logs[m.server := logs[m.server][m.index := m.command]];
      if m.index > maxIndex { maxIndex := m.index; }
    }

    method Apply(m: Applied) returns (error: bool)
      requires m.server < |logs|
      modifies this
      ensures View() == Record(old(View()), m) && error == Complains(old(View()), m)
    {
      var conflict, prevOk := CheckLogs(m);
      error := conflict || (m.index > 1 && !prevOk);
    }

    /** The appliers' messages in the order the lock admitted them. */
    method Watch(trace: seq<Applied>) returns (error: bool)
      requires View() == Checked(seq(|logs|, i => map[]), 0) && FromServers(trace, |logs|)
      modifies this
      ensures |logs| == old(|logs|) && View() == Replay(trace, |logs|) && error == Reported(trace, |logs|)
    {
      error := false;
      for i := 0 to |trace|
        invariant |logs| == old(|logs|)
        invariant FromServers(trace[..i], |logs|)
        invariant View() == Replay(trace[..i], |logs|) && error == Reported(trace[..i], |logs|)
      {
        assert trace[i] in trace && trace[..i + 1][..i] == trace[..i];
        var bad := Apply(trace[i]);
        error := error || bad;
      }
      assert trace[..|trace|] == trace;
    }

    /** How many servers hold the index, and with what command; None is the abort on a mismatch. */
    method NCommitted(index: int) returns (r: Option<(nat, Option<Command>)>)
      ensures r.None? <==> exists i, j :: 0 <= i < j < |logs| && index in logs[i] && index in logs[j] &&
                                          logs[i][index] != logs[j][index]
      ensures r.Some? ==>
                && r.value.0 == |set i | 0 <= i < |logs| && index in logs[i]|
                && (r.value.1.None? <==> forall i :: 0 <= i < |logs| ==> index !in logs[i])
                && (r.value.1.Some? ==>
                      forall i :: 0 <= i < |logs| && index in logs[i] ==> logs[i][index] == r.value.1.value)
    {
      var count := 0;
      var cmd: Option<Command> := None;
      ghost var holders: set<int> := {};
      for i := 0 to |logs|
        invariant holders == set k | 0 <= k < i && index in logs[k]
        invariant count == |holders|
        invariant cmd.None? <==> count == 0
        invariant forall k :: 0 <= k < i && index in logs[k] ==> cmd == Some(logs[k][index])
        invariant count > 0 ==> exists k :: 0 <= k < i && index in logs[k]
      {
        if index in logs[i] {
          if count > 0 && cmd != Some(logs[i][index]) {
            ghost var k :| 0 <= k < i && index in logs[k];
            return None;
          }
          holders := holders + {i};
          count := count + 1;
          cmd := Some(logs[i][index]);
        }
      }
      return Some((count, cmd));
    }
  }

  // ---- whole traces ------------------------------------------------------------------

  predicate FromServers(trace: seq<Applied>, n: nat) {
    forall m <- trace :: m.server < n
  }

  function Replay(trace: seq<Applied>, n: nat): (c: Checked)
    requires FromServers(trace, n)
    ensures |c.logs| == n
  {
    if trace == [] then Checked(seq(n, i => map[]), 0)
    else Record(Replay(trace[..|trace| - 1], n), trace[|trace| - 1])
  }

  /** Some message of the trace was complained about when it arrived. */
  predicate Reported(trace: seq<Applied>, n: nat)
    requires FromServers(trace, n)
  {
    trace != [] &&
    (Reported(trace[..|trace| - 1], n) || Complains(Replay(trace[..|trace| - 1], n), trace[|trace| - 1]))
  }

  /** The server applied the index before position `p` of the trace. */
  predicate AppliedBefore(trace: seq<Applied>, p: nat, server: nat, index: int)
    requires p <= |trace|
  {
    exists q :: 0 <= q < p && trace[q].server == server && trace[q].index == index
  }

  predicate InOrder(trace: seq<Applied>) {
    forall p :: 0 <= p < |trace| && trace[p].index > 1 ==> AppliedBefore(trace, p, trace[p].server, trace[p].index - 1)
  }

  predicate Agreement(trace: seq<Applied>) {
    forall p, q :: 0 <= p < |trace| && 0 <= q < |trace| && trace[p].index == trace[q].index ==>
      trace[p].command == trace[q].command
  }

  /** State-machine safety of the whole trace. */
  predicate SafeTrace(trace: seq<Applied>) {
    InOrder(trace) && Agreement(trace)
  }

  /** The logs hold the indices each server applied, with a command it applied there. */
  ghost predicate LogsMatch(trace: seq<Applied>, n: nat)
    requires FromServers(trace, n)
  {
    && (forall i, k :: 0 <= i < n ==> (k in Replay(trace, n).logs[i] <==> AppliedBefore(trace, |trace|, i, k)))
    && (forall i, k :: 0 <= i < n && k in Replay(trace, n).logs[i] ==>
          exists q :: 0 <= q < |trace| && trace[q] == Applied(i, k, Replay(trace, n).logs[i][k]))
  }

  lemma {:induction false} ReplayMatches(trace: seq<Applied>, n: nat)
    requires FromServers(trace, n)
    ensures LogsMatch(trace, n)
  {
    if trace != [] {
      var front, m := trace[..|trace| - 1], trace[|trace| - 1];
      ReplayMatches(front, n);
      forall i, k | 0 <= i < n
        ensures k in Replay(trace, n).logs[i] <==> AppliedBefore(trace, |trace|, i, k)
      {
        assert AppliedBefore(front, |front|, i, k) ==> AppliedBefore(trace, |trace|, i, k);
        if i == m.server && k == m.index { assert trace[|trace| - 1] == m; }
      }
      forall i, k | 0 <= i < n && k in Replay(trace, n).logs[i]
        ensures exists q :: 0 <= q < |trace| && trace[q] == Applied(i, k, Replay(trace, n).logs[i][k])
      {
        if i == m.server && k == m.index {
          assert trace[|trace| - 1] == Applied(i, k, m.command);
        } else {
          var q :| 0 <= q < |front| && front[q] == Applied(i, k, Replay(front, n).logs[i][k]);
          assert trace[q] == front[q];
        }
      }
    }
  }

  lemma SafePrefix(trace: seq<Applied>)
    requires trace != []
    ensures SafeTrace(trace) <==>
              && SafeTrace(trace[..|trace| - 1])
              && (trace[|trace| - 1].index > 1 ==>
                    AppliedBefore(trace, |trace| - 1, trace[|trace| - 1].server, trace[|trace| - 1].index - 1))
              && (forall q :: 0 <= q < |trace| - 1 && trace[q].index == trace[|trace| - 1].index ==>
                    trace[q].command == trace[|trace| - 1].command)
  {
    var front := trace[..|trace| - 1];
    forall p, s, k | 0 <= p <= |front| ensures AppliedBefore(front, p, s, k) <==> AppliedBefore(trace, p, s, k) {}
    assert forall p :: 0 <= p < |front| ==> front[p] == trace[p];
  }

  /** The conflict test over the gathered logs finds every earlier disagreement. */
  lemma ConflictExact(trace: seq<Applied>, n: nat, index: int, command: Command)
    requires FromServers(trace, n) && Agreement(trace)
    ensures Conflicts(Replay(trace, n).logs, index, command) <==>
              exists q :: 0 <= q < |trace| && trace[q].index == index && trace[q].command != command
  {
    var logs := Replay(trace, n).logs;
    ReplayMatches(trace, n);
    if Conflicts(logs, index, command) {
      var j :| 0 <= j < |logs| && index in logs[j] && logs[j][index] != command;
      var q :| 0 <= q < |trace| && trace[q] == Applied(j, index, logs[j][index]);
    }
    forall q | 0 <= q < |trace| && trace[q].index == index && trace[q].command != command
      ensures Conflicts(logs, index, command)
    {
      var j := trace[q].server;
      assert trace[q] in trace;
      assert AppliedBefore(trace, |trace|, j, index);
      var p :| 0 <= p < |trace| && trace[p] == Applied(j, index, logs[j][index]);
    }
  }

  lemma OrderExact(trace: seq<Applied>, n: nat)
    requires trace != [] && FromServers(trace, n)
    ensures
      var m := trace[|trace| - 1];
      OutOfOrder(Replay(trace[..|trace| - 1], n).logs[m.server], m.index) <==>
        m.index > 1 && !AppliedBefore(trace, |trace| - 1, m.server, m.index - 1)
  {
    var front, m := trace[..|trace| - 1], trace[|trace| - 1];
    ReplayMatches(front, n);
    assert m in trace;
    var k := m.index - 1;
    assert AppliedBefore(front, |front|, m.server, k) <==> AppliedBefore(trace, |trace| - 1, m.server, k);
  }

  /** On a safe trace, a message is complained about iff it makes the trace unsafe. */
  lemma ComplaintExact(trace: seq<Applied>, n: nat)
    requires trace != [] && FromServers(trace, n) && SafeTrace(trace[..|trace| - 1])
    ensures Complains(Replay(trace[..|trace| - 1], n), trace[|trace| - 1]) <==> !SafeTrace(trace)
  {
    var front, m := trace[..|trace| - 1], trace[|trace| - 1];
    ConflictExact(front, n, m.index, m.command);
    OrderExact(trace, n);
    SafePrefix(trace);
    assert forall q :: 0 <= q < |front| ==> front[q] == trace[q];
  }

  /** The online check reports nothing exactly when the whole trace is safe. */
  lemma {:induction false} CheckExact(trace: seq<Applied>, n: nat)
    requires FromServers(trace, n)
    ensures !Reported(trace, n) <==> SafeTrace(trace)
  {
    if trace != [] {
      CheckExact(trace[..|trace| - 1], n);
      SafePrefix(trace);
      if SafeTrace(trace[..|trace| - 1]) { ComplaintExact(trace, n); }
    }
  }

  // ---- what an unreported run looks like ---------------------------------------------------

  /** `global` lists the committed commands; the log holds a prefix of it at indices 1, 2, ... */
  ghost predicate IsPrefixOf(log: Log, global: seq<Command>, len: nat) {
    && len <= |global|
    && (forall k :: 1 <= k ==> (k in log <==> k <= len))
    && (forall k :: 1 <= k <= len ==> log[k] == global[k - 1])
  }

  lemma {:induction false} LogsClosed(trace: seq<Applied>, n: nat, i: nat, k: int)
    requires FromServers(trace, n) && InOrder(trace) && i < n && k > 1 && k in Replay(trace, n).logs[i]
    ensures k - 1 in Replay(trace, n).logs[i]
  {
    ReplayMatches(trace, n);
    var q :| 0 <= q < |trace| && trace[q].server == i && trace[q].index == k;
    assert AppliedBefore(trace, q, i, k - 1);
    assert AppliedBefore(trace, |trace|, i, k - 1);
  }

  lemma {:induction false} ClosedDown(trace: seq<Applied>, n: nat, i: nat, k: int, l: int)
    requires FromServers(trace, n) && InOrder(trace) && i < n && 1 <= l <= k && k in Replay(trace, n).logs[i]
    ensures l in Replay(trace, n).logs[i]
    decreases k - l
  {
    if l < k {
      ClosedDown(trace, n, i, k, l + 1);
      LogsClosed(trace, n, i, l + 1);
    }
  }

  /** maxIndex is the greatest index applied, or 0 if none is positive. */
  lemma {:induction false} MaxIndexExact(trace: seq<Applied>, n: nat)
    requires FromServers(trace, n)
    ensures Replay(trace, n).maxIndex >= 0
    ensures forall m <- trace :: m.index <= Replay(trace, n).maxIndex
    ensures Replay(trace, n).maxIndex > 0 ==> exists m :: m in trace && m.index == Replay(trace, n).maxIndex
  {
    if trace != [] {
      var front := trace[..|trace| - 1];
      MaxIndexExact(front, n);
      assert trace == front + [trace[|trace| - 1]];
      if Replay(front, n).maxIndex > 0 {
        var m :| m in front && m.index == Replay(front, n).maxIndex;
        assert m in trace;
      }
      assert trace[|trace| - 1] in trace;
    }
  }

  /** The command applied at index k, wherever it was applied. */
  function CommandAt(trace: seq<Applied>, k: int): Command {
    if trace == [] then ""
    else if trace[|trace| - 1].index == k then trace[|trace| - 1].command
    else CommandAt(trace[..|trace| - 1], k)
  }

  lemma {:induction false} CommandAgreed(trace: seq<Applied>, q: nat)
    requires q < |trace| && Agreement(trace)
    ensures CommandAt(trace, trace[q].index) == trace[q].command
  {
    var front := trace[..|trace| - 1];
    if trace[|trace| - 1].index != trace[q].index {
      assert front[q] == trace[q];
      CommandAgreed(front, q);
    }
  }

  function GlobalLog(trace: seq<Applied>, n: nat): seq<Command>
    requires FromServers(trace, n) && Replay(trace, n).maxIndex >= 0
  {
    seq(Replay(trace, n).maxIndex, k requires 0 <= k => CommandAt(trace, k + 1))
  }

  function PrefixLength(trace: seq<Applied>, n: nat, i: nat): (len: nat)
    requires FromServers(trace, n) && i < n
  {
    LengthUpTo(Replay(trace, n).logs[i], if Replay(trace, n).maxIndex > 0 then Replay(trace, n).maxIndex else 0)
  }

  /** The greatest index in 1..bound the log holds, or 0. */
  function LengthUpTo(log: Log, bound: nat): (len: nat)
    ensures len <= bound && (len > 0 ==> len in log) && forall k :: len < k <= bound ==> k !in log
  {
    if bound == 0 || bound in log then bound else LengthUpTo(log, bound - 1)
  }

  /** An unreported run has one sequence of commands, of length maxIndex, of which every log is a prefix. */
  lemma OneGlobalLog(trace: seq<Applied>, n: nat, i: nat)
    requires FromServers(trace, n) && !Reported(trace, n) && i < n
    ensures Replay(trace, n).maxIndex >= 0 && |GlobalLog(trace, n)| == Replay(trace, n).maxIndex
    ensures IsPrefixOf(Replay(trace, n).logs[i], GlobalLog(trace, n), PrefixLength(trace, n, i))
  {
    CheckExact(trace, n);
    MaxIndexExact(trace, n);
    ReplayMatches(trace, n);
    var log, len := Replay(trace, n).logs[i], PrefixLength(trace, n, i);
    forall k | 1 <= k && k in log ensures k <= len && log[k] == CommandAt(trace, k) {
      var q :| 0 <= q < |trace| && trace[q] == Applied(i, k, log[k]);
      CommandAgreed(trace, q);
    }
    forall k | 1 <= k <= len ensures k in log { ClosedDown(trace, n, i, len, k); }
  }

  /** Some server's log is as long as the global one. */
  lemma GlobalLogReached(trace: seq<Applied>, n: nat)
    requires FromServers(trace, n) && !Reported(trace, n) && Replay(trace, n).maxIndex > 0
    ensures exists i :: 0 <= i < n && PrefixLength(trace, n, i) == Replay(trace, n).maxIndex
  {
    MaxIndexExact(trace, n);
    ReplayMatches(trace, n);
    var m :| m in trace && m.index == Replay(trace, n).maxIndex;
    var q :| 0 <= q < |trace| && trace[q] == m;
    assert AppliedBefore(trace, |trace|, m.server, m.index);
    assert PrefixLength(trace, n, m.server) == Replay(trace, n).maxIndex;
  }

  /** In an unreported run nCommitted never meets two commands for one index. */
  lemma NoCommitMismatch(trace: seq<Applied>, n: nat, index: int)
    requires FromServers(trace, n) && !Reported(trace, n)
    ensures
      var logs := Replay(trace, n).logs;
      forall i, j :: 0 <= i < j < |logs| && index in logs[i] && index in logs[j] ==> logs[i][index] == logs[j][index]
  {
    CheckExact(trace, n);
    ReplayMatches(trace, n);
    var logs := Replay(trace, n).logs;
    forall i, j | 0 <= i < j < |logs| && index in logs[i] && index in logs[j] ensures logs[i][index] == logs[j][index] {
      var p :| 0 <= p < |trace| && trace[p] == Applied(i, index, logs[i][index]);
      var q :| 0 <= q < |trace| && trace[q] == Applied(j, index, logs[j][index]);
    }
  }
}
