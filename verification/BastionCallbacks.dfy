/**
 * What the callbacks of a session bring about (web/lib/ssh-bastion-mux.ts): which one runs for which
 * outcome, what becomes of the requests it submits, and what a callback that drops the session leaves.
 */
module BastionCallbacks {
  import opened BastionDemux
  import opened BastionMux
  import opened BastionOutage
  import opened BastionUpload
  import opened Text
  import opened Wrappers

  /* ---------- where requests come from ---------- */

  /** How often these actions submit the request. */
  function Asks(acts: seq<Action>, x: Request): nat {
    multiset(acts)[Submit(x)]
  }

  /** How often the callbacks for the first `n` lines of output do. */
  function AsksOnStream(req: Request, n: nat, x: Request): nat {
    if n == 0 then 0
    else AsksOnStream(req, n - 1, x) + if n <= |req.onStream| then Asks(req.onStream[n - 1].acts, x) else 0
  }

  /** How often the callback for the reported outcome does. */
  function AsksOnEnd(c: Completion, x: Request): nat {
    if c.success then Asks(c.req.onOk.acts, x) else Asks(c.req.onFail.acts, x)
  }

  function AsksOfDone(done: seq<Completion>, x: Request): nat {
    if done == [] then 0
    else AsksOfDone(Init(done), x) + AsksOnEnd(Last(done), x) + AsksOnStream(Last(done).req, |Last(done).heard|, x)
  }

  /** A request that is turned away fails. */
  function AsksOfRefused(refused: seq<Request>, x: Request): nat {
    if refused == [] then 0 else AsksOfRefused(Init(refused), x) + Asks(Last(refused).onFail.acts, x)
  }

  function AsksInFlight(st: Session, x: Request): nat {
    if st.current.Some? then AsksOnStream(st.current.value, |st.heard|, x) else 0
  }

  /** How often any callback that was due has submitted the request. */
  function Asked(st: Session, x: Request): nat {
    AsksOfDone(st.done, x) + AsksOfRefused(st.refused, x) + AsksInFlight(st, x)
  }

  /** How often the request has reached the session, to be accepted or turned away. */
  function Entered(st: Session, x: Request): nat {
    multiset(st.accepted)[x] + multiset(st.refused)[x]
  }

  function FromOutside(events: seq<Event>, x: Request): nat {
    multiset(events)[Enqueued(x)]
  }

  /** From one state to the other the request came `n` times more than callbacks account for. */
  predicate Gains(before: Session, after: Session, n: nat, x: Request) {
    Entered(after, x) + Asked(before, x) == Entered(before, x) + Asked(after, x) + n
  }

  lemma AsksNext(acts: seq<Action>, x: Request)
    requires acts != []
    ensures Asks(acts, x) == Asks(acts[1..], x) + if acts[0] == Submit(x) then 1 else 0
  {
    assert acts == [acts[0]] + acts[1..];
  }

  lemma RefusedNext(refused: seq<Request>, r: Request, x: Request)
    ensures AsksOfRefused(refused + [r], x) == AsksOfRefused(refused, x) + Asks(r.onFail.acts, x)
  {
    assert Init(refused + [r]) == refused;
  }

  lemma DoneNext(done: seq<Completion>, c: Completion, x: Request)
    ensures AsksOfDone(done + [c], x) == AsksOfDone(done, x) + AsksOnEnd(c, x) + AsksOnStream(c.req, |c.heard|, x)
  {
    assert Init(done + [c]) == done;
  }

  lemma {:induction false} DoneConcat(a: seq<Completion>, b: seq<Completion>, x: Request)
    ensures AsksOfDone(a + b, x) == AsksOfDone(a, x) + AsksOfDone(b, x)
  {
    if b == [] {
      assert a + b == a;
    } else {
      assert a + b == (a + Init(b)) + [Last(b)];
      DoneNext(a + Init(b), Last(b), x);
      DoneConcat(a, Init(b), x);
    }
  }

  lemma {:induction false} TurnAwayGains(refused: seq<Request>, acts: seq<Action>, x: Request)
    ensures var r := TurnAway(refused, acts);
      multiset(r)[x] + AsksOfRefused(refused, x) == multiset(refused)[x] + AsksOfRefused(r, x) + Asks(acts, x)
    decreases ActionsWeight(acts), |acts|
  {
    hide Asks;
    if acts == [] {
      NoAsks(x);
    } else {
      AsksNext(acts, x);
      match acts[0]
      case Drop => TurnAwayGains(refused, acts[1..], x);
      case Submit(req) =>
        WeightBounds(req);
        assert ActionWeight(acts[0]) == Weight(req);
        RefusedNext(refused, req, x);
        TurnAwayGains(refused + [req], req.onFail.acts, x);
        TurnAwayGains(TurnAway(refused + [req], req.onFail.acts), acts[1..], x);
    }
  }

  lemma NoAsks(x: Request)
    ensures Asks([], x) == 0
  {
  }

  lemma {:induction false} TurnAwayAllGains(refused: seq<Request>, queue: seq<Request>, x: Request)
    ensures var r := TurnAwayAll(refused, queue);
      multiset(r)[x] + AsksOfRefused(refused, x)
      == multiset(refused)[x] + AsksOfRefused(r, x) + AsksOfDone(Flushed(queue), x)
  {
    if queue != [] {
      hide Asks, TurnAway;
      TurnAwayAllGains(refused, Init(queue), x);
      TurnAwayGains(TurnAwayAll(refused, Init(queue)), Last(queue).onFail.acts, x);
      DoneNext(Flushed(Init(queue)), Completion(Last(queue), [], false, None), x);
    }
  }

  lemma RetireAsks(st: Session, code: Option<int>, success: bool, x: Request)
    requires Ledger(st) && st.current.Some?
    ensures var r, c := Retire(st, code, success), st.current.value;
      && Entered(r, x) == Entered(st, x)
      && Asked(r, x) == Asked(st, x) + if success then Asks(c.onOk.acts, x) else Asks(c.onFail.acts, x)
  {
    hide Asks;
    DoneNext(st.done, Completion(st.current.value, st.heard, success, code), x);
  }

  lemma CloseGains(env: Env, st: Session, x: Request)
    requires Sound(env, st)
    ensures Gains(st, Close(env, st), 0, x)
  {
    if !st.dead {
      CloseIs(env, st);
      hide Close, Flush, Retire, Sound, Ledger, Gains, TurnAway, TurnAwayAll, FailedInFlight;
      if st.current.Some? {
        FailGains(st, x);
      } else {
        FlushGains(st, st.refused, x);
        hide Asked, Entered, AsksOfRefused;
        assert Gains(st, Flush(st, TurnAwayAll(st.refused, st.queue)), 0, x);
      }
    } else {
      assert Close(env, st) == st;
    }
  }

  /** The command in flight fails, and then the queue. */
  lemma FailGains(st: Session, x: Request)
    requires Ledger(st) && st.current.Some?
    ensures var s, first := Retire(st, Some(-1), false), TurnAway(st.refused, st.current.value.onFail.acts);
      && s.queue == st.queue && s.refused == st.refused
      && Gains(st, Flush(s, TurnAwayAll(first, s.queue)), 0, x)
  {
    var s, acts := Retire(st, Some(-1), false), st.current.value.onFail.acts;
    assert s.queue == st.queue && s.refused == st.refused;
    hide Retire, Flush, Asks, TurnAway, TurnAwayAll, Ledger, Asked, Entered, AsksOfRefused;
    RetireAsks(st, Some(-1), false, x);
    TurnAwayGains(st.refused, acts, x);
    FlushGains(s, TurnAway(st.refused, acts), x);
  }

  lemma CloseIs(env: Env, st: Session)
    requires Sound(env, st) && !st.dead
    ensures Ledger(st)
    ensures st.current == None ==> Close(env, st) == Flush(st, TurnAwayAll(st.refused, st.queue))
    ensures st.current.Some? ==>
      var s, first := Retire(st, Some(-1), false), TurnAway(st.refused, st.current.value.onFail.acts);
      && s.queue == st.queue && s.refused == st.refused
      && Close(env, st) == Flush(s, TurnAwayAll(first, s.queue))
  {
    hide Flush, TurnAway, TurnAwayAll, Ledger;
  }

  /** The queue fails: `first` are the requests turned away so far. */
  lemma FlushGains(st: Session, first: seq<Request>, x: Request)
    requires Ledger(st) && st.current == None && st.refused <= first
    ensures var r := Flush(st, TurnAwayAll(first, st.queue));
      Entered(r, x) + Asked(st, x) + multiset(st.refused)[x] + AsksOfRefused(first, x)
      == Entered(st, x) + Asked(r, x) + multiset(first)[x] + AsksOfRefused(st.refused, x)
  {
    hide Asks, TurnAway, TurnAwayAll, Ledger, Flushed;
    TurnAwayAllGains(first, st.queue, x);
    DoneConcat(st.done, Flushed(st.queue), x);
  }

  /* ---------- live sessions ---------- */

  lemma {:induction false} PumpGains(env: Env, st: Session, x: Request)
    requires Sound(env, st)
    ensures Gains(st, Pump(env, st), 0, x)
    decreases Total(st), 2, 0
  {
    hide Finish, RunActions, Asks, AsksOfDone, AsksOfRefused, Ledger;
    if !st.dead && st.current == None && st.queue != [] {
      var s := Start(env, st);
      if !env.writeOk(st.started) {
        FinishGains(env, s, Some(-1), false, x);
      }
    }
  }

  lemma {:induction false} FinishGains(env: Env, st: Session, code: Option<int>, success: bool, x: Request)
    requires Ledger(st) && st.current.Some? && !st.dead
    ensures Gains(st, Finish(env, st, code, success), 0, x)
    decreases Total(st), 1, 0
  {
    hide Pump, RunActions, Asked, Entered, Ledger, Asks;
    var c := st.current.value;
    var s := Retire(st, code, success);
    WeightBounds(c);
    RetireAsks(st, code, success, x);
    assert Sound(env, s);
    var acts := if success then c.onOk.acts else c.onFail.acts;
    RunActionsGains(env, s, acts, x);
    PumpGains(env, RunActions(env, s, acts), x);
  }

  lemma {:induction false} RunActionsGains(env: Env, st: Session, acts: seq<Action>, x: Request)
    requires Sound(env, st)
    ensures Gains(st, RunActions(env, st, acts), Asks(acts, x), x)
    decreases Total(st) + ActionsWeight(acts), 4, |acts|
  {
    hide Accept, Close, TurnAway, Asks, AsksOfDone, AsksOfRefused, Ledger;
    if st.dead {
      TurnAwayGains(st.refused, acts, x);
    } else if acts == [] {
      NoAsks(x);
    } else {
      AsksNext(acts, x);
      assert ActionsWeight(acts) == ActionWeight(acts[0]) + ActionsWeight(acts[1..]);
      assert acts[0].Submit? ==> ActionWeight(acts[0]) == Weight(acts[0].req);
      if acts[0].Submit? {
        AcceptGains(env, st, acts[0].req, x);
        RunActionsGains(env, Accept(env, st, acts[0].req), acts[1..], x);
      } else {
        CloseGains(env, st, x);
        RunActionsGains(env, Close(env, st), acts[1..], x);
      }
    }
  }

  lemma {:induction false} AcceptGains(env: Env, st: Session, req: Request, x: Request)
    requires Sound(env, st) && !st.dead
    ensures Gains(st, Accept(env, st, req), if req == x then 1 else 0, x)
    decreases Total(st) + Weight(req), 3, 0
  {
    hide Pump, Ledger, Asked, AsksOfDone, AsksOfRefused;
    QueueWeightAppend(st.queue, req);
    var s := st.(queue := st.queue + [req], accepted := st.accepted + [req]);
    LedgerQueued(st, req);
    QueuedAsks(st, req, x);
    if s.warmed {
      PumpGains(env, s, x);
    }
  }

  lemma QueuedAsks(st: Session, req: Request, x: Request)
    ensures Gains(st, st.(queue := st.queue + [req], accepted := st.accepted + [req]), if req == x then 1 else 0, x)
  {
    hide AsksOfDone, AsksOfRefused, AsksOnStream;
  }

  /* ---------- whole runs ---------- */

  lemma OnLineGains(env: Env, st: Session, line: string, x: Request)
    requires Sound(env, st)
    ensures Gains(st, OnLine(env, st, line), 0, x)
  {
    hide Pump, Finish, RunActions, IsEcho, Contains, Trim, ExitCodeFrom, Asks, AsksOfDone, AsksOfRefused, Ledger;
    var code := ExitCodeFrom(line, EndPrefix(st.id), 0);
    if !st.warmed {
      var warm := st.(warmed := true);
      assert Sound(env, warm) by { WarmSound(env, st); }
      PumpGains(env, warm, x);
    } else if st.current.Some? {
      if !st.dead {
        FinishGains(env, st, Some(code.GetOr(-1)), code == Some(0), x);
      }
      var s := st.(heard := st.heard + [line]);
      assert Sound(env, s) by { HeardSound(env, st, line); }
      RunActionsGains(env, s, StreamActions(st.current.value, |st.heard|), x);
      HeardAsks(st, line, x);
      hide Asked, Entered, StreamActions;
    }
  }

  lemma WarmSound(env: Env, st: Session)
    requires Sound(env, st)
    ensures Sound(env, st.(warmed := true))
  {
  }

  lemma HeardSound(env: Env, st: Session, line: string)
    requires Sound(env, st)
    ensures Sound(env, st.(heard := st.heard + [line]))
  {
  }

  lemma HeardAsks(st: Session, line: string, x: Request)
    requires st.current.Some?
    ensures var s := st.(heard := st.heard + [line]);
      && Entered(s, x) == Entered(st, x)
      && Asked(s, x) == Asked(st, x) + Asks(StreamActions(st.current.value, |st.heard|), x)
  {
    NoAsks(x);
  }

  lemma {:induction false} OnLinesGains(env: Env, st: Session, lines: seq<string>, x: Request)
    requires Sound(env, st)
    ensures Gains(st, OnLines(env, st, lines), 0, x)
    decreases |lines|
  {
    hide OnLine, Sound, Asked, Entered;
    if lines != [] {
      OnLineGains(env, st, lines[0], x);
      OnLinesGains(env, OnLine(env, st, lines[0]), lines[1..], x);
    }
  }

  lemma TimeoutGains(env: Env, st: Session, x: Request)
    requires Sound(env, st)
    ensures Gains(st, OnTimeout(env, st), 0, x)
  {
    hide Finish, Close, Asked, Entered, Ledger;
    if st.armed {
      FinishGains(env, st, Some(-1), false, x);
      CloseGains(env, Finish(env, st, Some(-1), false), x);
    }
  }

  lemma EnqueueGains(env: Env, st: Session, req: Request, x: Request)
    requires Sound(env, st)
    ensures Gains(st, Enqueue(env, st, req), if req == x then 1 else 0, x)
  {
    hide Accept, TurnAway, Asks, AsksOfDone, AsksOfRefused, Ledger;
    if st.dead {
      RefusedNext(st.refused, req, x);
      TurnAwayGains(st.refused + [req], req.onFail.acts, x);
    } else {
      AcceptGains(env, st, req, x);
    }
  }

  lemma StepGains(env: Env, l: Link, ev: Event, x: Request)
    requires AtRest(env, l.session)
    ensures Gains(l.session, Step(env, l, ev).session, if ev == Enqueued(x) then 1 else 0, x)
  {
    hide Enqueue, OnTimeout, Close, OnLines, Asked, Entered, Sound, Settled;
    match ev
    case Enqueued(req) => EnqueueGains(env, l.session, req, x);
    case Data(chunk) => OnLinesGains(env, l.session, StripReturns(Init(Split(l.buffer + chunk))), x);
    case Timeout => TimeoutGains(env, l.session, x);
    case WarmupTimeout => CloseGains(env, l.session, x);
    case Closed => CloseGains(env, l.session, x);
    case Killed => CloseGains(env, l.session, x);
  }

  lemma {:induction false} RunGains(env: Env, l: Link, events: seq<Event>, x: Request)
    requires AtRest(env, l.session)
    ensures Gains(l.session, Run(env, l, events).session, FromOutside(events, x), x)
    decreases |events|
  {
    hide Step, Asked, Entered, Sound, Settled;
    if events != [] {
      StepKeepsRest(env, l, events[0]);
      StepGains(env, l, events[0], x);
      RunGains(env, Step(env, l, events[0]), events[1..], x);
      assert events == [events[0]] + events[1..];
    }
  }

  /**
   * Conservation, over every run, with failing writes, timeouts, closes and callbacks that drop the
   * session: a request has been accepted or turned away exactly as often as it was submitted: from
   * outside, by the success callbacks of the requests that completed successfully, by the failure
   * callbacks of those that did not, by the callbacks of the lines each was told, and by the failure
   * callbacks of those turned away. No other callback runs, and none runs twice.
   */
  lemma RequestsConserved(env: Env, events: seq<Event>, x: Request)
    ensures AtRest(env, FRESH)
    ensures var r := Run(env, Link("", FRESH), events).session;
      multiset(r.accepted)[x] + multiset(r.refused)[x]
      == multiset(events)[Enqueued(x)] + AsksOfDone(r.done, x) + AsksOfRefused(r.refused, x) + AsksInFlight(r, x)
  {
    FreshAtRest(env);
    RunGains(env, Link("", FRESH), events, x);
  }

  /* ---------- in which order ---------- */

  /** The requests that these actions submit. */
  function Requested(acts: seq<Action>): (r: seq<Request>)
    ensures QueueWeight(r) == ActionsWeight(acts)
  {
    if acts == [] then []
    else
      match acts[0]
      case Submit(req) => [req] + Requested(acts[1..])
      case Drop => Requested(acts[1..])
  }

  /** What comes before the first action that drops the session. */
  function UntilDrop(acts: seq<Action>): seq<Action> {
    if acts == [] || acts[0] == Drop then [] else [acts[0]] + UntilDrop(acts[1..])
  }

  /** And what comes behind it. */
  function AfterDrop(acts: seq<Action>): seq<Action> {
    if acts == [] then [] else if acts[0] == Drop then acts[1..] else AfterDrop(acts[1..])
  }

  /** Requests turned away one after another, each followed at once by those its failure submits. */
  function Fallout(reqs: seq<Request>): seq<Request>
    decreases QueueWeight(reqs), |reqs|
  {
    if reqs == [] then []
    else
      WeightBounds(reqs[0]);
      [reqs[0]] + Fallout(Requested(reqs[0].onFail.acts)) + Fallout(reqs[1..])
  }

  /** What the failure callbacks of these completions submit. */
  function OnFailure(cs: seq<Completion>): seq<Request> {
    if cs == [] then [] else OnFailure(Init(cs)) + Requested(Last(cs).req.onFail.acts)
  }

  lemma {:induction false} FalloutConcat(a: seq<Request>, b: seq<Request>)
    ensures Fallout(a + b) == Fallout(a) + Fallout(b)
    decreases |a|
  {
    if a == [] {
      assert a + b == b;
    } else {
      assert (a + b)[1..] == a[1..] + b;
      FalloutConcat(a[1..], b);
    }
  }

  /** What a dead session turns away while a callback runs. */
  lemma {:induction false} TurnAwayIs(refused: seq<Request>, acts: seq<Action>)
    ensures TurnAway(refused, acts) == refused + Fallout(Requested(acts))
    decreases ActionsWeight(acts), |acts|
  {
    if acts != [] {
      match acts[0]
      case Drop => TurnAwayIs(refused, acts[1..]);
      case Submit(req) =>
        WeightBounds(req);
        assert ActionWeight(acts[0]) == Weight(req);
        TurnAwayIs(refused + [req], req.onFail.acts);
        TurnAwayIs(TurnAway(refused + [req], req.onFail.acts), acts[1..]);
        assert Requested(acts)[1..] == Requested(acts[1..]);
    }
  }

  lemma {:induction false} TurnAwayAllIs(refused: seq<Request>, queue: seq<Request>)
    ensures TurnAwayAll(refused, queue) == refused + Fallout(OnFailure(Flushed(queue)))
  {
    if queue != [] {
      hide Fallout, Requested, TurnAway, OnFailure;
      var front, acts := OnFailure(Flushed(Init(queue))), Last(queue).onFail.acts;
      TurnAwayAllIs(refused, Init(queue));
      TurnAwayIs(TurnAwayAll(refused, Init(queue)), acts);
      OnFailureNext(Flushed(Init(queue)), Completion(Last(queue), [], false, None));
      FalloutConcat(front, Requested(acts));
      assert refused + Fallout(front) + Fallout(Requested(acts))
          == refused + (Fallout(front) + Fallout(Requested(acts)));
    } else {
      assert refused + [] == refused;
    }
  }

  lemma OnFailureNext(cs: seq<Completion>, c: Completion)
    ensures OnFailure(cs + [c]) == OnFailure(cs) + Requested(c.req.onFail.acts)
  {
    assert Init(cs + [c]) == cs;
  }

  lemma {:induction false} OnFailureConcat(a: seq<Completion>, b: seq<Completion>)
    ensures OnFailure(a + b) == OnFailure(a) + OnFailure(b)
  {
    hide Requested;
    if b == [] {
      assert a + b == a;
    } else {
      assert a + b == (a + Init(b)) + [Last(b)];
      OnFailureNext(a + Init(b), Last(b));
      OnFailureConcat(a, Init(b));
    }
  }

  /** A close turns away what the failure callbacks of the requests it fails submit, in that order. */
  lemma CloseTurnsAway(env: Env, st: Session)
    requires Sound(env, st) && !st.dead
    ensures var r := Close(env, st);
      r.refused == st.refused + Fallout(OnFailure(r.done[|st.done|..]))
  {
    CloseIs(env, st);
    CloseDone(env, st);
    hide Close, Flushed, Fallout, TurnAway, TurnAwayAll, OnFailure, Sound, Ledger, Requested, Flush, Retire;
    var failed, flushed := FailedInFlight(st), Flushed(st.queue);
    if st.current.Some? {
      var acts := st.current.value.onFail.acts;
      TurnAwayIs(st.refused, acts);
      TurnAwayAllIs(TurnAway(st.refused, acts), st.queue);
      OneFailure(failed[0]);
      FallsOn(st.refused, failed, flushed, TurnAway(st.refused, acts), Close(env, st).refused);
    } else {
      NoFailures();
      TurnAwayAllIs(st.refused, st.queue);
      assert st.refused + [] == st.refused;
      FallsOn(st.refused, failed, flushed, st.refused, Close(env, st).refused);
    }
  }

  lemma CloseDone(env: Env, st: Session)
    requires Sound(env, st) && !st.dead
    ensures Close(env, st).done[|st.done|..] == FailedInFlight(st) + Flushed(st.queue)
    ensures Ledger(st) && st.current == None ==>
      Flush(st, TurnAwayAll(st.refused, st.queue)).refused == TurnAwayAll(st.refused, st.queue)
    ensures st.current.Some? ==>
      var s, first := Retire(st, Some(-1), false), TurnAway(st.refused, st.current.value.onFail.acts);
      Flush(s, TurnAwayAll(first, st.queue)).refused == TurnAwayAll(first, st.queue)
  {
    hide TurnAway, TurnAwayAll, Flushed, Ledger;
    var failed, flushed := FailedInFlight(st), Flushed(st.queue);
    assert (st.done + failed + flushed)[|st.done|..] == failed + flushed;
  }

  lemma FallsOn(refused: seq<Request>, a: seq<Completion>, b: seq<Completion>, first: seq<Request>, last: seq<Request>)
    requires first == refused + Fallout(OnFailure(a)) && last == first + Fallout(OnFailure(b))
    ensures last == refused + Fallout(OnFailure(a + b))
  {
    hide Fallout, OnFailure;
    OnFailureConcat(a, b);
    FalloutConcat(OnFailure(a), OnFailure(b));
  }

  lemma NoFailures()
    ensures Fallout(OnFailure([])) == []
  {
  }

  lemma OneFailure(c: Completion)
    ensures OnFailure([c]) == Requested(c.req.onFail.acts)
  {
    OnFailureNext([], c);
    assert [] + [c] == [c];
  }

  /**
   * From one state to the other a callback has run that does this: what it submits is accepted, in
   * order, up to where it drops the session. The session is alive afterwards exactly when it does
   * not. If it does, the failures of all that was pending follow, and what they and the rest of the
   * callback submit is turned away, in order, each with what its own failure submits.
   */
  predicate RanCallback(before: Session, acts: seq<Action>, after: Session) {
    && after.accepted == before.accepted + Requested(UntilDrop(acts))
    && (after.dead <==> Drop in acts)
    && before.done <= after.done
    && (after.dead ==>
          var follows := OnFailure(after.done[|before.done|..]) + Requested(AfterDrop(acts));
          && Requests(after.done) == after.accepted
          && OnlyFailuresAfter(before.done + FailedInFlight(before), after)
          && after.refused == before.refused + Fallout(follows))
    && (!after.dead ==> after.refused == before.refused && after.done == before.done)
  }

  lemma AcceptAdds(env: Env, st: Session, req: Request)
    requires Sound(env, st) && !st.dead && WritesSucceed(env)
    ensures var r := Accept(env, st, req);
      !r.dead && r.done == st.done && r.accepted == st.accepted + [req] && r.refused == st.refused
  {
    hide Ledger;
    AcceptLives(env, st, req);
    LedgerQueued(st, req);
  }

  lemma {:induction false} RunActionsRan(env: Env, st: Session, acts: seq<Action>)
    requires Sound(env, st) && !st.dead && WritesSucceed(env)
    ensures RanCallback(st, acts, RunActions(env, st, acts))
    decreases |acts|
  {
    hide Accept, Close, Sound, Ledger, Fallout, OnFailure, OnlyFailuresAfter, TurnAway, RanCallback;
    var r := RunActions(env, st, acts);
    if r.dead {
      ActionsFail(env, st, acts);
      DeadIsComplete(env, r);
    }
    if acts == [] {
      RanNothing(st);
    } else if acts[0].Submit? {
      AcceptAdds(env, st, acts[0].req);
      RunActionsRan(env, Accept(env, st, acts[0].req), acts[1..]);
      RanOneMore(st, Accept(env, st, acts[0].req), acts, r);
    } else {
      RanDrop(env, st, acts);
    }
  }

  lemma RanNothing(st: Session)
    requires !st.dead
    ensures RanCallback(st, [], st)
  {
  }

  lemma RanOneMore(st: Session, a: Session, acts: seq<Action>, r: Session)
    requires acts != [] && acts[0].Submit? && RanCallback(a, acts[1..], r)
    requires a.done == st.done && a.accepted == st.accepted + [acts[0].req] && a.refused == st.refused
    requires r.dead ==> OnlyFailuresAfter(st.done + FailedInFlight(st), r)
    ensures RanCallback(st, acts, r)
  {
    hide Fallout, OnFailure, OnlyFailuresAfter;
    var more := Requested(UntilDrop(acts[1..]));
    assert Requested(UntilDrop(acts)) == [acts[0].req] + more by {
      assert UntilDrop(acts)[1..] == UntilDrop(acts[1..]);
    }
    assert st.accepted + [acts[0].req] + more == st.accepted + ([acts[0].req] + more);
    assert acts == [acts[0]] + acts[1..];
  }

  lemma RanDrop(env: Env, st: Session, acts: seq<Action>)
    requires Sound(env, st) && !st.dead && acts != [] && acts[0] == Drop
    requires var r := RunActions(env, st, acts);
      r.dead ==> OnlyFailuresAfter(st.done + FailedInFlight(st), r) && Requests(r.done) == r.accepted
    ensures RanCallback(st, acts, RunActions(env, st, acts))
  {
    hide Close, Sound, Ledger, Fallout, OnFailure, OnlyFailuresAfter, TurnAway;
    var c := Close(env, st);
    CloseKeepsDone(env, st);
    CloseTurnsAway(env, st);
    TurnAwayIs(c.refused, acts[1..]);
    var failed, rest := OnFailure(c.done[|st.done|..]), Requested(acts[1..]);
    FalloutConcat(failed, rest);
    assert RunActions(env, st, acts) == RunActions(env, c, acts[1..]) == c.(refused := TurnAway(c.refused, acts[1..]));
    assert st.refused + Fallout(failed) + Fallout(rest) == st.refused + (Fallout(failed) + Fallout(rest));
    assert st.accepted + [] == st.accepted;
  }

  lemma DeadIsComplete(env: Env, st: Session)
    requires Sound(env, st) && st.dead
    ensures Requests(st.done) == st.accepted
  {
    assert Requests(st.done) + [] + [] == Requests(st.done);
  }

  lemma CloseKeepsDone(env: Env, st: Session)
    requires Sound(env, st)
    ensures Close(env, st).dead && Close(env, st).accepted == st.accepted && st.done <= Close(env, st).done
  {
  }

  /* ---------- through the handlers ---------- */

  /** The command in flight is recorded with this outcome, and then the callback for the outcome has run. */
  predicate Reported(st: Session, success: bool, code: Option<int>, r: Session)
    requires st.current.Some?
  {
    var c := st.current.value;
    var told := st.(current := None, done := st.done + [Completion(c, st.heard, success, code)]);
    RanCallback(told, if success then c.onOk.acts else c.onFail.acts, r)
  }

  lemma FinishReports(env: Env, st: Session, code: Option<int>, success: bool)
    requires Ledger(st) && st.current.Some? && !st.dead && WritesSucceed(env)
    ensures Reported(st, success, code, Finish(env, st, code, success))
  {
    hide RunActions, Pump, Ledger, Fallout, OnFailure, OnlyFailuresAfter, Requested, UntilDrop, AfterDrop;
    var c := st.current.value;
    var s := Retire(st, code, success);
    assert Sound(env, s);
    var acts := if success then c.onOk.acts else c.onFail.acts;
    var told := st.(current := None, done := st.done + [Completion(c, st.heard, success, code)]);
    assert s.done + FailedInFlight(s) == told.done + FailedInFlight(told);
    RunActionsRan(env, s, acts);
    PumpLives(env, RunActions(env, s, acts));
    PumpAdds(env, RunActions(env, s, acts));
  }

  lemma PumpAdds(env: Env, st: Session)
    requires Sound(env, st) && WritesSucceed(env)
    ensures SameRecord(st, Pump(env, st)) && Pump(env, st).refused == st.refused
  {
  }

  /**
   * The END line: a status of zero is a success, and then `onOk` runs, and `onFail` otherwise. What
   * that one submits, and nothing else, is accepted, in order.
   */
  lemma EndLineReports(env: Env, st: Session, tail: string, rc: int)
    requires Sound(env, st) && st.warmed && !st.dead && st.current.Some? && WritesSucceed(env)
    requires '=' !in st.id && !Contains(tail, EndPrefix(st.id))
    ensures Reported(st, rc == 0, Some(rc), OnLine(env, st, EndLine(st.id, tail, rc)))
  {
    hide Finish, OnLine, EndLine, Contains, Reported;
    EndServed(env, st, Frame([], [], tail, rc));
    FinishReports(env, st, Some(rc), rc == 0);
  }

  /** A line of output runs the callback of its number, if the request has one. */
  lemma OutputRuns(env: Env, st: Session, line: string)
    requires Sound(env, st) && st.warmed && !st.dead && st.current.Some? && st.inside && WritesSucceed(env)
    requires IsOutput(st.id, line)
    ensures var k, callbacks := |st.heard|, st.current.value.onStream;
      RanCallback(st.(heard := st.heard + [line]), if k < |callbacks| then callbacks[k].acts else [],
                  OnLine(env, st, line))
  {
    hide RunActions, IsEcho, Contains, Trim, RanCallback, StartMarker, EndPrefix;
    var s := st.(heard := st.heard + [line]);
    HeardSound(env, st, line);
    assert OnLine(env, st, line) == RunActions(env, s, StreamActions(st.current.value, |st.heard|));
    RunActionsRan(env, s, StreamActions(st.current.value, |st.heard|));
  }

  /**
   * A timeout: `onFail` runs on the session while it is still alive, so what it submits is accepted;
   * then everything pending fails, and what those failures submit is turned away.
   */
  lemma TimeoutReports(env: Env, st: Session)
    requires Sound(env, st) && st.armed && !st.dead && WritesSucceed(env)
    ensures var r, c := OnTimeout(env, st), st.current.value;
      var told := st.done + [Completion(c, st.heard, false, Some(-1))];
      && r.dead && r.accepted == st.accepted + Requested(UntilDrop(c.onFail.acts)) == Requests(r.done)
      && OnlyFailuresAfter(told, r)
      && r.refused == st.refused + Fallout(OnFailure(r.done[|told|..]) + Requested(AfterDrop(c.onFail.acts)))
  {
    var c := st.current.value;
    var f := Finish(env, st, Some(-1), false);
    hide Finish, Close, Ledger, Fallout, OnFailure, Requested, UntilDrop, FailuresFrom;
    FinishReports(env, st, Some(-1), false);
    if f.dead {
    } else {
      NothingAfter(c.onFail.acts);
      CloseFails(env, f);
      CloseTurnsAway(env, f);
      CloseKeepsDone(env, f);
      DeadIsComplete(env, Close(env, f));
      FailedFirst(f, Close(env, f));
      var follows := OnFailure(Close(env, f).done[|f.done|..]);
      assert follows + [] == follows;
    }
  }

  lemma NothingAfter(acts: seq<Action>)
    requires Drop !in acts
    ensures Requested(AfterDrop(acts)) == []
  {
    if acts != [] {
      assert acts[0] in acts;
      NothingAfter(acts[1..]);
    }
  }

  /** A command that has heard nothing fails like one that never started. */
  lemma FailedFirst(st: Session, r: Session)
    requires Unanswered(st) && OnlyFailuresAfter(st.done + FailedInFlight(st), r)
    ensures OnlyFailuresAfter(st.done, r)
  {
    var told := st.done + FailedInFlight(st);
    forall i | |st.done| <= i < |r.done| ensures Failed(r.done[i]) && r.done[i].heard == [] {
      if i < |told| {
        assert r.done[i] == told[i];
      }
    }
  }

  /** A request that comes to a dead session is turned away with whatever its failure submits. */
  lemma EnqueueDead(env: Env, st: Session, req: Request)
    requires Sound(env, st) && st.dead
    ensures Enqueue(env, st, req) == st.(refused := st.refused + Fallout([req]))
  {
    TurnAwayIs(st.refused + [req], req.onFail.acts);
    assert [req][1..] == [];
    assert Fallout([req]) == [req] + Fallout(Requested(req.onFail.acts)) + [];
    assert st.refused + [req] + Fallout(Requested(req.onFail.acts)) == st.refused + Fallout([req]);
  }
}
