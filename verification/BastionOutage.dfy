/**
 * Demultiplexing for runs that do not end well (web/lib/ssh-bastion-mux.ts): what each request has
 * been told at any moment, and what it is told when a timeout, a close, a kill or a callback ends the
 * session, be it in the middle of an answer or of a chunk.
 */
module BastionOutage {
  import opened BastionDemux
  import opened BastionMux
  import opened BastionUpload
  import opened Text
  import opened Wrappers

  /* ---------- what a session that dies still completes ---------- */

  /** A failure has no status to report, or -1. */
  predicate Failed(c: Completion) {
    !c.success && (c.code == None || c.code == Some(-1))
  }

  /** From the n-th on, these completions are failures that were told nothing. */
  predicate FailuresFrom(done: seq<Completion>, n: nat) {
    forall i | n <= i < |done| :: Failed(done[i]) && done[i].heard == []
  }

  predicate OnlyFailuresAfter(done: seq<Completion>, st: Session) {
    done <= st.done && FailuresFrom(st.done, |done|)
  }

  lemma {:induction false} FlushedFail(queue: seq<Request>)
    ensures FailuresFrom(Flushed(queue), 0)
  {
    if queue != [] {
      FlushedFail(Init(queue));
    }
  }

  lemma CloseFails(env: Env, st: Session)
    requires Sound(env, st) && !st.dead
    ensures OnlyFailuresAfter(st.done + FailedInFlight(st), Close(env, st))
  {
    FlushedFail(st.queue);
    hide Close, Sound;
    var done, flushed := st.done + FailedInFlight(st), Flushed(st.queue);
    forall i | |done| <= i < |done + flushed| ensures (done + flushed)[i] == flushed[i - |done|] {
    }
  }

  lemma PumpLives(env: Env, st: Session)
    requires Sound(env, st) && WritesSucceed(env)
    ensures Pump(env, st).dead == st.dead
    ensures st.dead || st.current.Some? ==> Pump(env, st) == st
  {
  }

  /** A live session that accepts a request stays alive, and what is in flight stays in flight. */
  lemma AcceptLives(env: Env, st: Session, req: Request)
    requires Sound(env, st) && !st.dead && WritesSucceed(env)
    ensures var r := Accept(env, st, req);
      && !r.dead && r.done == st.done
      && if st.current.Some? then FailedInFlight(r) == FailedInFlight(st) else Unanswered(r)
  {
    hide Pump, Ledger;
    var s := st.(queue := st.queue + [req], accepted := st.accepted + [req]);
    assert Ledger(s) by { LedgerQueued(st, req); }
    PumpLives(env, s);
  }

  lemma LedgerQueued(st: Session, req: Request)
    requires Ledger(st)
    ensures Ledger(st.(queue := st.queue + [req], accepted := st.accepted + [req]))
  {
  }

  /** If a callback ends the session, the command in flight keeps what it heard and the rest hears nothing. */
  lemma {:induction false} ActionsFail(env: Env, st: Session, acts: seq<Action>)
    requires Sound(env, st) && !st.dead && WritesSucceed(env) && RunActions(env, st, acts).dead
    ensures OnlyFailuresAfter(st.done + FailedInFlight(st), RunActions(env, st, acts))
    decreases |acts|
  {
    hide Accept, Close, Sound;
    if acts[0].Submit? {
      var a := Accept(env, st, acts[0].req);
      AcceptLives(env, st, acts[0].req);
      ActionsFail(env, a, acts[1..]);
    } else {
      CloseFails(env, st);
    }
  }

  lemma FinishFails(env: Env, st: Session, code: Option<int>, success: bool)
    requires Ledger(st) && st.current.Some? && !st.dead && WritesSucceed(env)
    requires Finish(env, st, code, success).dead
    ensures var completion := Completion(st.current.value, st.heard, success, code);
      OnlyFailuresAfter(st.done + [completion], Finish(env, st, code, success))
  {
    hide RunActions, Pump, Ledger;
    var s := Retire(st, code, success);
    assert Sound(env, s);
    var acts := if success then st.current.value.onOk.acts else st.current.value.onFail.acts;
    PumpLives(env, RunActions(env, s, acts));
    ActionsFail(env, s, acts);
  }

  lemma TimeoutFails(env: Env, st: Session)
    requires Sound(env, st) && st.armed && !st.dead && WritesSucceed(env)
    ensures OnlyFailuresAfter(st.done + FailedInFlight(st), OnTimeout(env, st))
  {
    hide Finish, Close, Ledger;
    var f := Finish(env, st, Some(-1), false);
    if f.dead {
      FinishFails(env, st, Some(-1), false);
    } else {
      assert f.done == st.done + FailedInFlight(st);
      CloseFails(env, f);
    }
  }

  /* ---------- a dead session records nothing more ---------- */

  predicate SameRecord(before: Session, after: Session) {
    after.dead == before.dead && after.done == before.done && after.accepted == before.accepted
  }

  lemma {:induction false} DeadLines(env: Env, st: Session, lines: seq<string>)
    requires Sound(env, st) && st.dead
    ensures SameRecord(st, OnLines(env, st, lines))
    decreases |lines|
  {
    hide IsEcho, Contains, Trim, Ledger;
    if lines != [] {
      DeadLines(env, OnLine(env, st, lines[0]), lines[1..]);
    }
  }

  lemma DeadStep(env: Env, l: Link, ev: Event)
    requires AtRest(env, l.session) && l.session.dead
    ensures SameRecord(l.session, Step(env, l, ev).session)
  {
    if ev.Data? {
      DeadLines(env, l.session, StripReturns(Init(Split(l.buffer + ev.chunk))));
    }
  }

  lemma {:induction false} DeadRun(env: Env, l: Link, events: seq<Event>)
    requires AtRest(env, l.session) && l.session.dead
    ensures SameRecord(l.session, Run(env, l, events).session)
    decreases |events|
  {
    hide Step;
    if events != [] {
      StepKeepsRest(env, l, events[0]);
      DeadStep(env, l, events[0]);
      DeadRun(env, Step(env, l, events[0]), events[1..]);
    }
  }

  /* ---------- where in the stream it died ---------- */

  /** `d` lines of the stream are `j` whole answers and `k` lines of the next, or part of the warm-up. */
  predicate At(sh: Shell, d: nat, j: nat, k: nat) {
    && j <= |sh.frames|
    && if d < |sh.warmup| then j == 0 && k == 0
       else d == Offset(sh, j) + k && if j < |sh.frames| then k < FrameLength(sh.frames[j]) else k == 0
  }

  /** The output among the first `k` lines of the j-th answer. */
  function HeardOf(sh: Shell, j: nat, k: nat): seq<string> {
    if j < |sh.frames| && |sh.frames[j].noise| < k < FrameLength(sh.frames[j]) then
      sh.frames[j].body[..k - |sh.frames[j].noise| - 1]
    else []
  }

  /**
   * Dead after `j` answers and `k` lines of the next: all that was accepted is completed, the first
   * `j` requests with their answers, the others as failures, of which only the next one heard anything.
   */
  predicate CutShort(sh: Shell, st: Session, j: nat, k: nat) {
    && st.dead && Requests(st.done) == st.accepted && sh.first + j <= |st.done| && j <= |sh.frames|
    && (forall i | 0 <= i < j :: st.done[sh.first + i] == Answer(st.accepted[sh.first + i], sh.frames[i]))
    && forall i | sh.first + j <= i < |st.done| ::
         Failed(st.done[i]) && st.done[i].heard == if i == sh.first + j then HeardOf(sh, j, k) else []
  }

  lemma CutShortKept(sh: Shell, st: Session, r: Session, j: nat, k: nat)
    requires CutShort(sh, st, j, k) && SameRecord(st, r)
    ensures CutShort(sh, r, j, k)
  {
  }

  lemma CutShortFrom(env: Env, sh: Shell, st: Session, r: Session, j: nat, k: nat)
    requires Answered(sh, st, j) && Sound(env, r) && r.dead && st.accepted <= r.accepted
    requires OnlyFailuresAfter(st.done + FailedInFlight(st), r)
    requires HeardOf(sh, j, k) == if st.current.Some? then st.heard else []
    ensures CutShort(sh, r, j, k)
  {
    assert Requests(r.done) + [] + [] == Requests(r.done);
  }

  lemma ReadingAt(env: Env, sh: Shell, st: Session, p: nat, j: nat, k: nat)
    requires Reading(env, sh, st, p, j, k)
    ensures At(sh, p, j, k) && HeardOf(sh, j, k) == if st.current.Some? then st.heard else []
    ensures Answered(sh, st, j) && Sound(env, st) && !st.dead
  {
  }

  lemma WarmupLives(env: Env, sh: Shell, st: Session, p: nat, j: nat, k: nat, line: string)
    requires Reading(env, sh, st, p, j, k) && p < |sh.warmup| && WritesSucceed(env)
    ensures !OnLine(env, st, line).dead
  {
    hide Trim, Pump;
    PumpLives(env, st.(warmed := true));
  }

  lemma BodyLineKills(env: Env, sh: Shell, st: Session, p: nat, j: nat, k: nat)
    requires WritesSucceed(env) && ValidShell(env, sh) && Reading(env, sh, st, p, j, k) && p >= |sh.warmup|
    requires j < |sh.frames| && |sh.frames[j].noise| < k < FrameLength(sh.frames[j]) - 1
    requires OnLine(env, st, FrameLines(env.id(sh.first + j), sh.frames[j])[k]).dead
    ensures At(sh, p + 1, j, k + 1)
    ensures CutShort(sh, OnLine(env, st, FrameLines(env.id(sh.first + j), sh.frames[j])[k]), j, k + 1)
  {
    var line := sh.frames[j].body[k - |sh.frames[j].noise| - 1];
    InFlightIs(env, sh, st, j);
    BodyLineIs(env, sh, j, k);
    hide OnLine, IsOutput, FrameLines, ValidShell, OnlyFailuresAfter, At, CutShort, Ledger, Answered, Offset;
    OutputKills(env, st, line);
    OutputCutShort(env, sh, st, OnLine(env, st, line), p, j, k);
  }

  lemma BodyLineIs(env: Env, sh: Shell, j: nat, k: nat)
    requires ValidShell(env, sh) && j < |sh.frames|
    requires |sh.frames[j].noise| < k < FrameLength(sh.frames[j]) - 1
    ensures var line := sh.frames[j].body[k - |sh.frames[j].noise| - 1];
      && k < |FrameLines(env.id(sh.first + j), sh.frames[j])|
      && FrameLines(env.id(sh.first + j), sh.frames[j])[k] == line && IsOutput(env.id(sh.first + j), line)
  {
    hide IsOutput, IsNoise, StartMarker, EndLine;
    assert CleanFrame(env.id(sh.first + j), sh.frames[j]);
  }

  lemma OutputCutShort(env: Env, sh: Shell, st: Session, r: Session, p: nat, j: nat, k: nat)
    requires Reading(env, sh, st, p, j, k) && p >= |sh.warmup|
    requires j < |sh.frames| && |sh.frames[j].noise| < k < FrameLength(sh.frames[j]) - 1
    requires Sound(env, r) && r.dead && st.accepted <= r.accepted
    requires var line := sh.frames[j].body[k - |sh.frames[j].noise| - 1];
      OnlyFailuresAfter(st.done + FailedInFlight(st.(heard := st.heard + [line])), r)
    ensures At(sh, p + 1, j, k + 1) && CutShort(sh, r, j, k + 1)
  {
    hide OnlyFailuresAfter, CutShort, Ledger, Answered, Offset;
    var i := k - |sh.frames[j].noise| - 1;
    var line := sh.frames[j].body[i];
    assert sh.frames[j].body[..i + 1] == sh.frames[j].body[..i] + [line];
    var s := st.(heard := st.heard + [line]);
    HeardAnswered(sh, st, line, j);
    CutShortFrom(env, sh, s, r, j, k + 1);
  }

  lemma HeardAnswered(sh: Shell, st: Session, line: string, j: nat)
    requires Answered(sh, st, j)
    ensures Answered(sh, st.(heard := st.heard + [line]), j)
  {
  }

  /** When the callback of a line of output ends the session, its command has heard that line too. */
  lemma OutputKills(env: Env, st: Session, line: string)
    requires Sound(env, st) && st.warmed && !st.dead && st.current.Some? && st.inside && WritesSucceed(env)
    requires IsOutput(st.id, line) && OnLine(env, st, line).dead
    ensures OnlyFailuresAfter(st.done + FailedInFlight(st.(heard := st.heard + [line])), OnLine(env, st, line))
  {
    hide RunActions, StreamActions, IsEcho, Contains, Trim, OnlyFailuresAfter, StartMarker, EndPrefix;
    var s := st.(heard := st.heard + [line]);
    assert OnLine(env, st, line) == RunActions(env, s, StreamActions(st.current.value, |st.heard|));
    ActionsFail(env, s, StreamActions(st.current.value, |st.heard|));
  }

  lemma LastLineKills(env: Env, sh: Shell, st: Session, p: nat, j: nat, k: nat)
    requires WritesSucceed(env) && ValidShell(env, sh) && Reading(env, sh, st, p, j, k) && p >= |sh.warmup|
    requires j < |sh.frames| && k == FrameLength(sh.frames[j]) - 1
    requires OnLine(env, st, FrameLines(env.id(sh.first + j), sh.frames[j])[k]).dead
    ensures At(sh, p + 1, j + 1, 0)
    ensures CutShort(sh, OnLine(env, st, FrameLines(env.id(sh.first + j), sh.frames[j])[k]), j + 1, 0)
  {
    var f := sh.frames[j];
    InFlightIs(env, sh, st, j);
    assert FrameLines(st.id, f)[k] == EndLine(st.id, f.tail, f.rc);
    assert CleanFrame(st.id, f);
    EndServed(env, st, f);
    assert f.body[..|f.body|] == f.body;
    hide OnLine, Finish, FrameLines, EndLine, ValidShell, CleanFrame, Reading, OnlyFailuresAfter, At, CutShort;
    FinishFails(env, st, Some(f.rc), f.rc == 0);
    AnswerCutShort(env, sh, st, Finish(env, st, Some(f.rc), f.rc == 0), p, j, k);
  }

  lemma AnswerCutShort(env: Env, sh: Shell, st: Session, r: Session, p: nat, j: nat, k: nat)
    requires Reading(env, sh, st, p, j, k) && p >= |sh.warmup| && st.current.Some?
    requires j < |sh.frames| && k == FrameLength(sh.frames[j]) - 1
    requires Sound(env, r) && r.dead && st.accepted <= r.accepted
    requires OnlyFailuresAfter(st.done + [Answer(st.current.value, sh.frames[j])], r)
    ensures At(sh, p + 1, j + 1, 0) && CutShort(sh, r, j + 1, 0)
  {
    hide OnlyFailuresAfter, CutShort, Answered, Ledger;
    var f := sh.frames[j];
    assert f.body[..|f.body|] == f.body;
    var s := Retire(st, Some(f.rc), f.rc == 0);
    assert FailedInFlight(s) == [] && s.done + [] == s.done;
    AnsweredNext(env, sh, st, s, j);
    CutShortFrom(env, sh, s, r, j + 1, 0);
  }

  /** Neither a line of the warm-up nor noise nor a START line ends the session. */
  lemma QuietLine(env: Env, sh: Shell, st: Session, p: nat, j: nat, k: nat)
    requires WritesSucceed(env) && ValidShell(env, sh) && Reading(env, sh, st, p, j, k)
    requires p < |ShellLines(env, sh)| && StartsSent(sh, st.started, p + 1)
    requires p < |sh.warmup| || (j < |sh.frames| && k <= |sh.frames[j].noise|)
    requires AtRest(env, st) && !st.dead
    ensures !OnLine(env, st, ShellLines(env, sh)[p]).dead
  {
    hide Reading, ShellLines, FrameLines, ValidShell, StartsSent, OnLine, FrameLength, Sound, Settled;
    if p < |sh.warmup| {
      WarmupLives(env, sh, st, p, j, k, ShellLines(env, sh)[p]);
    } else {
      NextLine(env, sh, st, p, j, k);
      if k < |sh.frames[j].noise| {
        NoiseLine(env, sh, st, p, j, k);
      } else {
        StartLineServed(env, sh, st, p, j, k);
        ReadingSound(env, sh, OnLine(env, st, ShellLines(env, sh)[p]), p + 1, j, k + 1);
      }
    }
  }

  /** A line that ends the session is one of output or the last of its answer. */
  lemma LineKills(env: Env, sh: Shell, st: Session, p: nat, j: nat, k: nat) returns (j': nat, k': nat)
    requires WritesSucceed(env) && ValidShell(env, sh) && Reading(env, sh, st, p, j, k)
    requires p < |ShellLines(env, sh)| && StartsSent(sh, st.started, p + 1)
    requires AtRest(env, st) && !st.dead && OnLine(env, st, ShellLines(env, sh)[p]).dead
    ensures At(sh, p + 1, j', k') && CutShort(sh, OnLine(env, st, ShellLines(env, sh)[p]), j', k')
  {
    hide Reading, ShellLines, FrameLines, ValidShell, StartsSent, OnLine, FrameLength, Answered, Sound, Settled,
      At, HeardOf, CutShort;
    if p < |sh.warmup| || (j < |sh.frames| && k <= |sh.frames[j].noise|) {
      QuietLine(env, sh, st, p, j, k);
    }
    NextLine(env, sh, st, p, j, k);
    if k < FrameLength(sh.frames[j]) - 1 {
      BodyLineKills(env, sh, st, p, j, k);
      return j, k + 1;
    } else {
      LastLineKills(env, sh, st, p, j, k);
      return j + 1, 0;
    }
  }

  /** Among the lines a chunk completes, one ends the session; the later ones find it dead. */
  lemma {:induction false} LinesKill(env: Env, sh: Shell, st: Session, p: nat, j: nat, k: nat, q: nat)
    returns (d: nat, j': nat, k': nat)
    requires WritesSucceed(env) && ValidShell(env, sh) && Reading(env, sh, st, p, j, k)
    requires p <= q <= |ShellLines(env, sh)| && StartsSent(sh, st.started, q)
    requires Sound(env, st) && OnLines(env, st, ShellLines(env, sh)[p..q]).dead
    ensures p <= d <= q && At(sh, d, j', k')
    ensures CutShort(sh, OnLines(env, st, ShellLines(env, sh)[p..q]), j', k')
    decreases q - p
  {
    hide Reading, ValidShell, ShellLines, OnLine, At, CutShort;
    var lines := ShellLines(env, sh);
    ReadingSound(env, sh, st, p, j, k);
    assert p < q && lines[p..q][0] == lines[p] && lines[p..q][1..] == lines[p + 1..q];
    var r := OnLine(env, st, lines[p]);
    FewerSent(sh, st.started, r.started, p + 1, q);
    if r.dead {
      j', k' := LineKills(env, sh, st, p, j, k);
      DeadLines(env, r, lines[p + 1..q]);
      CutShortKept(sh, r, OnLines(env, r, lines[p + 1..q]), j', k');
      return p + 1, j', k';
    }
    var j1, k1 := LineServed(env, sh, st, p, j, k);
    d, j', k' := LinesKill(env, sh, r, p + 1, j1, k1, q);
  }

  lemma DataKills(env: Env, sh: Shell, l: Link, chunk: string, rest: string, p: nat, j: nat, k: nat)
    returns (d: nat, j': nat, k': nat)
    requires WritesSucceed(env) && ValidShell(env, sh) && Reading(env, sh, l.session, p, j, k)
    requires Sound(env, l.session) && OnData(env, l, chunk).session.dead
    requires p <= |ShellLines(env, sh)| && Carries(l.buffer + (chunk + rest), ShellLines(env, sh)[p..])
    requires StartsSent(sh, l.session.started, p + |Split(l.buffer + chunk)| - 1)
    ensures p <= d <= p + |Split(l.buffer + chunk)| - 1 && At(sh, d, j', k')
    ensures CutShort(sh, OnData(env, l, chunk).session, j', k')
  {
    hide ValidShell, Reading, ShellLines, Carries, Plain, Sound, Settled, Split, StripReturns, OnLines,
      ExtendsOnline, StartsSent, Init, Last, At, CutShort;
    var lines := ShellLines(env, sh);
    var q := p + |Split(l.buffer + chunk)| - 1;
    CarriesOn(l.buffer, chunk, rest, lines[p..]);
    assert lines[p..][..q - p] == lines[p..q];
    d, j', k' := LinesKill(env, sh, l.session, p, j, k, q);
  }

  /** An event that ends the session: a chunk with such a line, the timer, a close or a kill. */
  lemma EventKills(env: Env, sh: Shell, l: Link, ev: Event, rest: string, p: nat, j: nat, k: nat)
    returns (d: nat, j': nat, k': nat)
    requires WritesSucceed(env) && ValidShell(env, sh) && Reading(env, sh, l.session, p, j, k) && Plain(l.buffer)
    requires AtRest(env, l.session) && Step(env, l, ev).session.dead
    requires p <= |ShellLines(env, sh)|
    requires Carries(l.buffer + ((if ev.Data? then ev.chunk else "") + rest), ShellLines(env, sh)[p..])
    requires StartsSent(sh, l.session.started, p + CompletedBy(l, ev))
    ensures p <= d <= p + CompletedBy(l, ev) && At(sh, d, j', k')
    ensures CutShort(sh, Step(env, l, ev).session, j', k')
  {
    hide ValidShell, Reading, ShellLines, Carries, Plain, Ledger, Settled, Split, OnData, Accept, Close, OnTimeout,
      StartsSent, At, CutShort, Answered, HeardOf;
    ReadingAt(env, sh, l.session, p, j, k);
    if ev.Data? {
      d, j', k' := DataKills(env, sh, l, ev.chunk, rest, p, j, k);
      return;
    } else if ev.Enqueued? {
      AcceptLives(env, l.session, ev.req);
    } else if ev.Timeout? {
      TimeoutFails(env, l.session);
    } else {
      CloseFails(env, l.session);
    }
    CutShortFrom(env, sh, l.session, Step(env, l, ev).session, j, k);
    return p, j, k;
  }

  /* ---------- whole runs ---------- */

  lemma {:induction false} RunAppend(env: Env, l: Link, a: seq<Event>, b: seq<Event>)
    requires AtRest(env, l.session)
    ensures Run(env, l, a + b) == Run(env, Run(env, l, a), b)
    decreases |a|
  {
    hide Step;
    if a == [] {
      assert a + b == b;
    } else {
      assert (a + b)[0] == a[0] && (a + b)[1..] == a[1..] + b;
      StepKeepsRest(env, l, a[0]);
      RunAppend(env, Step(env, l, a[0]), a[1..], b);
    }
  }

  lemma {:induction false} RunExtends(env: Env, l: Link, events: seq<Event>)
    requires AtRest(env, l.session)
    ensures ExtendsOnline(l.session, Run(env, l, events).session)
    decreases |events|
  {
    hide Step;
    if events != [] {
      StepKeepsRest(env, l, events[0]);
      RunExtends(env, Step(env, l, events[0]), events[1..]);
    }
  }

  /** A run whose last event ends the session: up to there the stream is served, then it is cut short. */
  lemma {:induction false} RunKills(env: Env, sh: Shell, l: Link, events: seq<Event>, fatal: Event, rest: string,
                                    p: nat, j: nat, k: nat)
    returns (d: nat, j': nat, k': nat)
    requires WritesSucceed(env) && ValidShell(env, sh) && Reading(env, sh, l.session, p, j, k) && Plain(l.buffer)
    requires AtRest(env, l.session) && Caused(env, l, events + [fatal], sh, p)
    requires p <= |ShellLines(env, sh)|
    requires Carries(l.buffer + (Delivered(events + [fatal]) + rest), ShellLines(env, sh)[p..])
    requires !Run(env, l, events).session.dead && Step(env, Run(env, l, events), fatal).session.dead
    ensures p + |Split(l.buffer + Delivered(events))| - 1 <= d
      <= p + |Split(l.buffer + Delivered(events + [fatal]))| - 1
    ensures At(sh, d, j', k') && CutShort(sh, Step(env, Run(env, l, events), fatal).session, j', k')
    decreases |events|
  {
    hide ValidShell, Reading, ShellLines, Carries, Plain, Sound, Settled, Step, StartsSent, CompletedBy, Split,
      At, CutShort;
    var all := events + [fatal];
    var ev, later := all[0], all[1..];
    assert [ev] + later == all;
    BufferAfter(env, l, ev);
    CompletedAlong(l, ev, later, Step(env, l, ev).buffer);
    var chunk := if ev.Data? then ev.chunk else "";
    assert (chunk + Delivered(later)) + rest == chunk + (Delivered(later) + rest);
    ReadingSound(env, sh, l.session, p, j, k);
    if events == [] {
      LastOf(l, fatal, Step(env, l, ev).buffer);
      d, j', k' := EventKills(env, sh, l, ev, Delivered(later) + rest, p, j, k);
      return;
    }
    assert ev == events[0] && later == events[1..] + [fatal];
    StepKeepsRest(env, l, ev);
    var l' := Step(env, l, ev);
    if l'.session.dead {
      RunStaysDead(env, l', events[1..]);
    }
    var j1, k1 := EventServed(env, sh, l, ev, Delivered(later) + rest, p, j, k);
    assert [ev] + events[1..] == events;
    CompletedAlong(l, ev, events[1..], l'.buffer);
    d, j', k' := RunKills(env, sh, l', events[1..], fatal, rest, p + CompletedBy(l, ev), j1, k1);
  }

  lemma LastOf(l: Link, fatal: Event, buffer: string)
    requires Plain(l.buffer) && buffer == (if fatal.Data? then Last(Split(l.buffer + fatal.chunk)) else l.buffer)
    ensures |Split(l.buffer + "")| == 1
    ensures CompletedBy(l, fatal) + 1 == |Split(l.buffer + Delivered([fatal]))|
  {
    assert l.buffer + "" == l.buffer;
    SplitPlain(l.buffer);
    assert [fatal][1..] == [];
    if fatal.Data? {
      assert fatal.chunk + "" == fatal.chunk;
    } else {
      assert "" + "" == "";
    }
  }

  /**
   * At every moment of every run, whatever the shell still has to say and whatever happens after: a
   * session that has taken in `p` lines of the stream has completed, of the requests accepted from
   * here on, exactly those whose answers end among these lines. They were told those answers, and
   * nothing later, the end of the session included, changes or repeats that.
   */
  lemma AnsweredSoFar(env: Env, sh: Shell, l: Link, events: seq<Event>, after: seq<Event>, rest: string)
    returns (j: nat, k: nat)
    requires AtRest(env, l.session) && Plain(l.buffer) && sh.first == |l.session.done|
    requires if sh.warmup == [] then l.session.warmed && Unanswered(l.session)
             else !l.session.warmed && l.session.current == None
    requires WritesSucceed(env) && ValidShell(env, sh) && Caused(env, l, events, sh, 0)
    requires Carries(l.buffer + (Delivered(events) + rest), ShellLines(env, sh))
    requires !Run(env, l, events).session.dead
    ensures At(sh, |Split(l.buffer + Delivered(events))| - 1, j, k)
    ensures |Run(env, l, events).session.done| == |l.session.done| + j
    ensures var r := Run(env, l, events + after).session;
      && |l.session.done| + j <= |r.done| && |l.session.done| + j <= |r.accepted|
      && forall i :: 0 <= i < j ==>
           var f := sh.frames[i];
           r.done[|l.session.done| + i] == Completion(r.accepted[|l.session.done| + i], f.body, f.rc == 0, Some(f.rc))
  {
    hide ValidShell, Carries, Plain, ShellLines, Caused, Run, Reading, Sound, Settled;
    if l.session.dead {
      RunStaysDead(env, l, events);
    }
    assert ShellLines(env, sh)[0..] == ShellLines(env, sh);
    StartsReading(env, sh, l.session);
    j, k := RunServes(env, sh, l, events, rest, 0, 0, 0);
    var mid := Run(env, l, events);
    ReadingAt(env, sh, mid.session, |Split(l.buffer + Delivered(events))| - 1, j, k);
    RunAppend(env, l, events, after);
    RunExtends(env, mid, after);
    AnswersStay(sh, mid.session, Run(env, mid, after).session, j);
  }

  lemma AnswersStay(sh: Shell, st: Session, r: Session, j: nat)
    requires Answered(sh, st, j) && ExtendsOnline(st, r)
    ensures sh.first + j <= |r.done| && sh.first + j <= |r.accepted|
    ensures forall i :: 0 <= i < j ==> r.done[sh.first + i] == Answer(r.accepted[sh.first + i], sh.frames[i])
  {
    forall i | 0 <= i < j ensures r.done[sh.first + i] == Answer(r.accepted[sh.first + i], sh.frames[i]) {
      assert r.done[sh.first + i] == st.done[sh.first + i];
      assert r.accepted[sh.first + i] == st.accepted[sh.first + i];
    }
  }

  /**
   * When an event ends the session, in the middle of an answer or of a chunk or anywhere else, there is
   * a line of the stream after which it died, among those that event completed. Everything accepted is
   * completed: the requests answered up to that line with their answers; the next one as a failure
   * that was told exactly the output of its answer so far; the others as failures that were told
   * nothing. What happens later adds nothing.
   */
  lemma CutOff(env: Env, sh: Shell, l: Link, events: seq<Event>, fatal: Event, after: seq<Event>, rest: string)
    returns (d: nat, j: nat, k: nat)
    requires AtRest(env, l.session) && Plain(l.buffer) && sh.first == |l.session.done|
    requires if sh.warmup == [] then l.session.warmed && Unanswered(l.session)
             else !l.session.warmed && l.session.current == None
    requires WritesSucceed(env) && ValidShell(env, sh) && Caused(env, l, events + [fatal], sh, 0)
    requires Carries(l.buffer + (Delivered(events + [fatal]) + rest), ShellLines(env, sh))
    requires !Run(env, l, events).session.dead && Step(env, Run(env, l, events), fatal).session.dead
    ensures |Split(l.buffer + Delivered(events))| - 1 <= d <= |Split(l.buffer + Delivered(events + [fatal]))| - 1
    ensures At(sh, d, j, k) && CutShort(sh, Run(env, l, events + [fatal] + after).session, j, k)
  {
    hide ValidShell, Carries, Plain, ShellLines, Caused, Run, Reading, Sound, Settled, Step, At, CutShort;
    if l.session.dead {
      RunStaysDead(env, l, events);
    }
    assert ShellLines(env, sh)[0..] == ShellLines(env, sh);
    StartsReading(env, sh, l.session);
    d, j, k := RunKills(env, sh, l, events, fatal, rest, 0, 0, 0);
    var last := Step(env, Run(env, l, events), fatal);
    StepKeepsRest(env, Run(env, l, events), fatal);
    assert events + [fatal] + after == events + ([fatal] + after);
    RunAppend(env, l, events, [fatal] + after);
    RunFirst(env, Run(env, l, events), fatal, after);
    DeadRun(env, last, after);
    CutShortKept(sh, last.session, Run(env, last, after).session, j, k);
  }

  lemma RunFirst(env: Env, l: Link, ev: Event, later: seq<Event>)
    requires AtRest(env, l.session)
    ensures AtRest(env, Step(env, l, ev).session)
    ensures Run(env, l, [ev] + later) == Run(env, Step(env, l, ev), later)
  {
    StepKeepsRest(env, l, ev);
    hide Step;
    assert ([ev] + later)[1..] == later;
  }
}
