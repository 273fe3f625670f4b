/**
 * Appending lines to a background task's log: a promise chain for every task, kept in a shared map
 * that is cleaned up behind it.
 */
module TaskLog {
  import opened Wrappers

  type TaskId = string

  /** A promise of the chain: not started, its update under way, or settled either way. */
  datatype Status = Waiting | Running | Updated | Failed

  /** One call of `appendTaskLog`; `prev` is the promise it was chained to, if the map held one. */
  datatype Entry = Entry(task: TaskId, line: string, prev: Option<nat>, status: Status, cleaned: bool)

  /** All calls so far in order, the map of queues, and the log column of every task. */
  datatype Chain = Chain(entries: seq<Entry>, queues: map<TaskId, nat>, logs: map<TaskId, string>)

  datatype Action =
    | Append(task: TaskId, line: string)
    | Start(i: nat)
    | Settle(i: nat, ok: bool)
    | CleanUp(i: nat)

  const EMPTY := Chain([], map[], map[])

  predicate Settled(e: Entry) {
    e.status == Updated || e.status == Failed
  }

  function Log(c: Chain, t: TaskId): string {
    if t in c.logs then c.logs[t] else ""
  }

  /* ---------- the steps; one that is not due changes nothing ---------- */

  function Appended(c: Chain, t: TaskId, line: string): Chain {
    var prev := if t in c.queues then Some(c.queues[t]) else None;
    c.(entries := c.entries + [Entry(t, line, prev, Waiting, false)], queues := c.queues[t := |c.entries|])
  }

  predicate Due(c: Chain, i: nat) {
    i < |c.entries| && c.entries[i].status == Waiting &&
    match c.entries[i].prev
    case None => true
    case Some(p) => p < |c.entries| && Settled(c.entries[p])
  }

  function Started(c: Chain, i: nat): Chain {
    if Due(c, i) then c.(entries := c.entries[i := c.entries[i].(status := Running)]) else c
  }

  function SettledWith(c: Chain, i: nat, ok: bool): Chain {
    if i < |c.entries| && c.entries[i].status == Running then
      var e := c.entries[i];
      var c' := c.(entries := c.entries[i := e.(status := if ok then Updated else Failed)]);
      if ok then c'.(logs := c.logs[e.task := Log(c, e.task) + e.line + "\n"]) else c'
    else c
  }

  function CleanedUp(c: Chain, i: nat): Chain {
    if i < |c.entries| && Settled(c.entries[i]) && !c.entries[i].cleaned then
      var e := c.entries[i];
      c.(entries := c.entries[i := e.(cleaned := true)],
         queues := if e.task in c.queues && c.queues[e.task] == i then c.queues - {e.task} else c.queues)
    else c
  }

  function Step(c: Chain, a: Action): Chain {
    match a
    case Append(t, line) => Appended(c, t, line)
    case Start(i) => Started(c, i)
    case Settle(i, ok) => SettledWith(c, i, ok)
    case CleanUp(i) => CleanedUp(c, i)
  }

  function Run(actions: seq<Action>): Chain {
    if actions == [] then EMPTY else Step(Run(actions[..|actions| - 1]), actions[|actions| - 1])
  }

  /** The lines of a task whose update succeeded, in call order. */
  function LogText(entries: seq<Entry>, t: TaskId): string {
    if entries == [] then ""
    else
      var e := entries[|entries| - 1];
      LogText(entries[..|entries| - 1], t) + if e.task == t && e.status == Updated then e.line + "\n" else ""
  }

  /* ---------- the invariant ---------- */

  /** Every call of task `t` before position `n` has settled. */
  predicate SettledBefore(entries: seq<Entry>, t: TaskId, n: nat)
    requires n <= |entries|
  {
    forall k :: 0 <= k < n && entries[k].task == t ==> Settled(entries[k])
  }

  /** Position `i` holds the last call of task `t` before position `n`. */
  predicate LastBefore(entries: seq<Entry>, t: TaskId, i: nat, n: nat)
    requires n <= |entries|
  {
    i < n && entries[i].task == t && forall k :: i < k < n ==> entries[k].task != t
  }

  predicate Ordered(entries: seq<Entry>, j: nat)
    requires j < |entries|
  {
    && (match entries[j].prev
        case Some(p) => LastBefore(entries, entries[j].task, p, j)
        case None => SettledBefore(entries, entries[j].task, j))
    && (entries[j].status != Waiting ==> SettledBefore(entries, entries[j].task, j))
  }

  predicate QueueRight(c: Chain, t: TaskId) {
    if t in c.queues then
      LastBefore(c.entries, t, c.queues[t], |c.entries|) && !c.entries[c.queues[t]].cleaned
    else SettledBefore(c.entries, t, |c.entries|)
  }

  ghost predicate Inv(c: Chain) {
    && (forall j :: 0 <= j < |c.entries| ==> Ordered(c.entries, j))
    && (forall t :: QueueRight(c, t))
    && (forall t :: Log(c, t) == LogText(c.entries, t))
  }

  /* ---------- every step keeps it ---------- */

  lemma AppendKeeps(c: Chain, t: TaskId, line: string)
    requires Inv(c)
    ensures Inv(Appended(c, t, line))
  {
    var c' := Appended(c, t, line);
    var n := |c.entries|;
    assert QueueRight(c, t);
    forall j | 0 <= j < |c'.entries| ensures Ordered(c'.entries, j) {
      if j < n {
        assert Ordered(c.entries, j);
      }
    }
    forall s ensures QueueRight(c', s) && Log(c', s) == LogText(c'.entries, s) {
      assert QueueRight(c, s);
      assert c'.entries[..n] == c.entries;
      assert Log(c, s) == LogText(c.entries, s);
    }
  }

  /** Entries that differ only in how far they have got keep their order facts, if nothing unsettles. */
  predicate Advances(a: seq<Entry>, b: seq<Entry>) {
    |a| == |b| && forall k :: 0 <= k < |a| ==>
      && a[k].task == b[k].task && a[k].line == b[k].line && a[k].prev == b[k].prev
      && (Settled(a[k]) ==> b[k].status == a[k].status)
  }

  lemma SettledBeforeKept(a: seq<Entry>, b: seq<Entry>, t: TaskId, n: nat)
    requires Advances(a, b) && n <= |a| && SettledBefore(a, t, n)
    ensures SettledBefore(b, t, n)
  {
  }

  lemma OrderedKept(a: seq<Entry>, b: seq<Entry>, j: nat)
    requires Advances(a, b) && j < |a| && Ordered(a, j)
    requires b[j].status == Waiting || a[j].status != Waiting || SettledBefore(a, a[j].task, j)
    ensures Ordered(b, j)
  {
    var t := a[j].task;
    if SettledBefore(a, t, j) {
      SettledBeforeKept(a, b, t, j);
    }
  }

  lemma {:induction false} SameText(a: seq<Entry>, b: seq<Entry>, t: TaskId)
    requires |a| == |b|
    requires forall k :: 0 <= k < |a| ==>
      a[k].task == b[k].task && a[k].line == b[k].line && (a[k].status == Updated <==> b[k].status == Updated)
    ensures LogText(a, t) == LogText(b, t)
  {
    if a != [] {
      SameText(a[..|a| - 1], b[..|b| - 1], t);
    }
  }

  /** A success with no later success of the same task adds its line at the end. */
  lemma {:induction false} TextGrows(a: seq<Entry>, j: nat)
    requires j < |a| && a[j].status != Updated
    requires forall k :: j < k < |a| && a[k].task == a[j].task ==> a[k].status != Updated
    ensures LogText(a[j := a[j].(status := Updated)], a[j].task) == LogText(a, a[j].task) + a[j].line + "\n"
  {
    var b := a[j := a[j].(status := Updated)];
    var n := |a| - 1;
    if j == n {
      assert b[..n] == a[..n];
      assert LogText(a[..n], a[j].task) + "" == LogText(a[..n], a[j].task);
      assert LogText(a[..n], a[j].task) + (a[j].line + "\n") == LogText(a[..n], a[j].task) + a[j].line + "\n";
    } else {
      assert b[..n] == a[..n][j := a[j].(status := Updated)];
      TextGrows(a[..n], j);
      assert LogText(b, a[j].task) == LogText(b[..n], a[j].task) + "";
      assert LogText(a, a[j].task) == LogText(a[..n], a[j].task) + "";
    }
  }

  lemma StartKeeps(c: Chain, i: nat)
    requires Inv(c)
    ensures Inv(Started(c, i))
  {
    if Due(c, i) {
      var c' := Started(c, i);
      assert Ordered(c.entries, i);
      ReadyBehind(c, i);
      forall j | 0 <= j < |c.entries| ensures Ordered(c'.entries, j) {
        assert Ordered(c.entries, j);
        OrderedKept(c.entries, c'.entries, j);
      }
      forall t ensures QueueRight(c', t) && Log(c', t) == LogText(c'.entries, t) {
        assert QueueRight(c, t);
        assert Log(c, t) == LogText(c.entries, t);
        SameText(c.entries, c'.entries, t);
      }
    }
  }

  /** A call that is due has every earlier call of its task behind it. */
  lemma ReadyBehind(c: Chain, i: nat)
    requires Inv(c) && Due(c, i)
    ensures SettledBefore(c.entries, c.entries[i].task, i)
  {
    assert Ordered(c.entries, i);
    if c.entries[i].prev.Some? {
      assert Ordered(c.entries, c.entries[i].prev.value);
    }
  }

  lemma SettleKeeps(c: Chain, i: nat, ok: bool)
    requires Inv(c)
    ensures Inv(SettledWith(c, i, ok))
  {
    if i < |c.entries| && c.entries[i].status == Running {
      var c' := SettledWith(c, i, ok);
      var e := c.entries[i];
      forall j | 0 <= j < |c.entries| ensures Ordered(c'.entries, j) {
        assert Ordered(c.entries, j);
        OrderedKept(c.entries, c'.entries, j);
      }
      forall t ensures QueueRight(c', t) {
        assert QueueRight(c, t);
        if t !in c.queues {
          SettledBeforeKept(c.entries, c'.entries, t, |c.entries|);
        }
      }
      NoneAfterRunning(c, i);
      forall t ensures Log(c', t) == LogText(c'.entries, t) {
        assert Log(c, t) == LogText(c.entries, t);
        if ok && t == e.task {
          TextGrows(c.entries, i);
        } else {
          TextOfOthers(c.entries, i, if ok then Updated else Failed, t);
        }
      }
    }
  }

  lemma NoneAfterRunning(c: Chain, i: nat)
    requires Inv(c) && i < |c.entries| && c.entries[i].status == Running
    ensures forall k :: i < k < |c.entries| && c.entries[k].task == c.entries[i].task ==> c.entries[k].status == Waiting
  {
    forall k | i < k < |c.entries| && c.entries[k].task == c.entries[i].task ensures c.entries[k].status == Waiting {
      assert Ordered(c.entries, k);
    }
  }

  lemma {:induction false} TextOfOthers(a: seq<Entry>, i: nat, s: Status, t: TaskId)
    requires i < |a| && (a[i].task != t || (a[i].status != Updated && s != Updated))
    ensures LogText(a[i := a[i].(status := s)], t) == LogText(a, t)
  {
    var b := a[i := a[i].(status := s)];
    var n := |a| - 1;
    if i == n {
      assert b[..n] == a[..n];
    } else {
      assert b[..n] == a[..n][i := a[i].(status := s)];
      TextOfOthers(a[..n], i, s, t);
    }
  }

  lemma CleanUpKeeps(c: Chain, i: nat)
    requires Inv(c)
    ensures Inv(CleanedUp(c, i))
  {
    if i < |c.entries| && Settled(c.entries[i]) && !c.entries[i].cleaned {
      var c' := CleanedUp(c, i);
      assert Ordered(c.entries, i);
      forall j | 0 <= j < |c.entries| ensures Ordered(c'.entries, j) {
        assert Ordered(c.entries, j);
        OrderedKept(c.entries, c'.entries, j);
      }
      forall t ensures QueueRight(c', t) && Log(c', t) == LogText(c'.entries, t) {
        assert QueueRight(c, t);
        assert Log(c, t) == LogText(c.entries, t);
        SameText(c.entries, c'.entries, t);
      }
    }
  }

  lemma StepKeeps(c: Chain, a: Action)
    requires Inv(c)
    ensures Inv(Step(c, a))
  {
    hide Inv;
    match a
    case Append(t, line) => AppendKeeps(c, t, line);
    case Start(i) => StartKeeps(c, i);
    case Settle(i, ok) => SettleKeeps(c, i, ok);
    case CleanUp(i) => CleanUpKeeps(c, i);
  }

  lemma {:induction false} RunKeeps(actions: seq<Action>)
    ensures Inv(Run(actions))
  {
    if actions != [] {
      RunKeeps(actions[..|actions| - 1]);
      StepKeeps(Run(actions[..|actions| - 1]), actions[|actions| - 1]);
    }
  }

  /* ---------- what follows for every interleaving ---------- */

  /** A task never has two updates in flight. */
  lemma OneUpdateAtATime(actions: seq<Action>, i: nat, j: nat)
    requires var c := Run(actions);
      i < j < |c.entries| && c.entries[i].task == c.entries[j].task && c.entries[i].status == Running
    ensures Run(actions).entries[j].status == Waiting
  {
    RunKeeps(actions);
    NoneAfterRunning(Run(actions), i);
  }

  /** A task's log is the lines whose update succeeded, in the order they were appended. */
  lemma LogInCallOrder(actions: seq<Action>, t: TaskId)
    ensures Log(Run(actions), t) == LogText(Run(actions).entries, t)
  {
    RunKeeps(actions);
  }

  /** The calls made in a run, in order: which task, and which line. */
  function Calls(actions: seq<Action>): seq<(TaskId, string)> {
    if actions == [] then []
    else
      var a := actions[|actions| - 1];
      Calls(actions[..|actions| - 1]) + if a.Append? then [(a.task, a.line)] else []
  }

  /** Each call is kept with its own task and its own line, whatever happens to it later. */
  lemma {:induction false} CallsAreKept(actions: seq<Action>)
    ensures var entries := Run(actions).entries;
      && |entries| == |Calls(actions)|
      && forall i :: 0 <= i < |entries| ==> (entries[i].task, entries[i].line) == Calls(actions)[i]
  {
    if actions != [] {
      CallsAreKept(actions[..|actions| - 1]);
    }
  }

  /**
   * An update that goes through adds exactly its call's line, with a newline, to its task's log; one
   * that fails adds nothing; the logs of other tasks stay as they are.
   */
  lemma UpdateWrites(c: Chain, i: nat, ok: bool, t: TaskId)
    requires i < |c.entries| && c.entries[i].status == Running
    ensures var c', e := Step(c, Settle(i, ok)), c.entries[i];
      Log(c', t) == Log(c, t) + if ok && e.task == t then e.line + "\n" else ""
  {
    assert Log(c, t) + "" == Log(c, t);
  }

  /** While a call has not settled, the map still holds its task's newest call, whatever was cleaned up. */
  lemma PendingStaysQueued(actions: seq<Action>, i: nat)
    requires i < |Run(actions).entries| && !Settled(Run(actions).entries[i])
    ensures var c := Run(actions);
      var t := c.entries[i].task;
      t in c.queues && i <= c.queues[t] < |c.entries| && LastBefore(c.entries, t, c.queues[t], |c.entries|)
  {
    RunKeeps(actions);
    assert QueueRight(Run(actions), Run(actions).entries[i].task);
  }

  /** Once every call of a task has settled and run its clean-up, the map holds nothing for it. */
  lemma MapIsBounded(actions: seq<Action>, t: TaskId)
    requires forall k :: 0 <= k < |Run(actions).entries| && Run(actions).entries[k].task == t ==>
      Run(actions).entries[k].cleaned
    ensures t !in Run(actions).queues
  {
    RunKeeps(actions);
    assert QueueRight(Run(actions), t);
  }

  /** No failure blocks the chain: the first call of a task that has not settled is running or due. */
  lemma NeverStuck(actions: seq<Action>, i: nat)
    requires var c := Run(actions);
      i < |c.entries| && !Settled(c.entries[i]) && SettledBefore(c.entries, c.entries[i].task, i)
    ensures Run(actions).entries[i].status == Running || Due(Run(actions), i)
  {
    RunKeeps(actions);
    assert Ordered(Run(actions).entries, i);
  }

  /* ---------- the module's state ---------- */

  class TaskLogs {
    var entries: seq<Entry>
    var queues: map<TaskId, nat>
    var logs: map<TaskId, string>

    function State(): Chain
      reads this
    {
      Chain(entries, queues, logs)
    }

    constructor ()
      ensures State() == EMPTY
    {
      entries, queues, logs := [], map[], map[];
    }

    method AppendTaskLog(taskId: TaskId, line: string) returns (next: nat)
      requires Inv(State())
      modifies this
      ensures State() == Appended(old(State()), taskId, line) && Inv(State())
      ensures next == old(|entries|)
    {
      AppendKeeps(State(), taskId, line);
      hide Inv;
      var prev := if taskId in queues then Some(queues[taskId]) else None;
      next := |entries|;
      entries := entries + [Entry(taskId, line, prev, Waiting, false)];
      queues := queues[taskId := next];
    }

    method StartUpdate(next: nat)
      requires Inv(State()) && Due(State(), next)
      modifies this
      ensures State() == Started(old(State()), next) && Inv(State())
    {
      StartKeeps(State(), next);
      hide Inv;
      entries := entries[next := entries[next].(status := Running)];
    }

    method SettleUpdate(next: nat, ok: bool)
      requires Inv(State()) && next < |entries| && entries[next].status == Running
      modifies this
      ensures State() == SettledWith(old(State()), next, ok) && Inv(State())
    {
      SettleKeeps(State(), next, ok);
      hide Inv;
      var e := entries[next];
      if ok {
        logs := logs[e.task := (if e.task in logs then logs[e.task] else "") + e.line + "\n"];
      }
      entries := entries[next := e.(status := if ok then Updated else Failed)];
    }

    /** The `finally` callback of a settled call. */
    method Finally(next: nat)
      requires Inv(State()) && next < |entries| && Settled(entries[next]) && !entries[next].cleaned
      modifies this
      ensures State() == CleanedUp(old(State()), next) && Inv(State())
    {
      CleanUpKeeps(State(), next);
      hide Inv;
      var taskId := entries[next].task;
      if taskId in queues && queues[taskId] == next {
        queues := queues - {taskId};
      }
      entries := entries[next := entries[next].(cleaned := true)];
    }
  }
}
