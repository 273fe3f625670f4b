/**
 * The session object itself. Each method leaves the object in the state the corresponding
 * function of BastionMux gives, so everything proved there holds of the object.
 */
module BastionShell {
  import opened Wrappers
  import opened Text
  import opened BastionUpload
  import M = BastionMux

  /** `finishCurrent` on a live or a dying session. */
  function Finished(env: M.Env, st: M.Session, code: Option<int>, success: bool): M.Session
    requires M.Ledger(st) && st.current.Some?
  {
    if st.dead then
      var s := M.Retire(st, code, success);
      s.(refused := M.TurnAway(s.refused, if success then st.current.value.onOk.acts else st.current.value.onFail.acts))
    else M.Finish(env, st, code, success)
  }

  /** A callback run against a live or a dead session. */
  function Called(env: M.Env, st: M.Session, acts: seq<M.Action>): M.Session
    requires st.dead || M.Sound(env, st)
  {
    if st.dead then st.(refused := M.TurnAway(st.refused, acts)) else M.RunActions(env, st, acts)
  }

  /** A flush that has failed the first `i` of the requests it took. */
  function FlushedTo(was: M.Session, left: seq<M.Request>, i: nat): M.Session
    requires i <= |left|
  {
    was.(queue := [], done := was.done + M.Flushed(left[..i]), refused := M.TurnAwayAll(was.refused, left[..i]))
  }

  function FailedOne(st: M.Session, r: M.Request): M.Session {
    st.(done := st.done + [M.Completion(r, [], false, None)], refused := M.TurnAway(st.refused, r.onFail.acts))
  }

  /** The effect of one action of a callback. */
  function Acted(env: M.Env, st: M.Session, a: M.Action): (r: M.Session)
    requires st.dead || M.Sound(env, st)
    ensures r.dead || M.Sound(env, r)
  {
    match a
    case Submit(req) =>
      if st.dead then st.(refused := M.TurnAway(st.refused + [req], req.onFail.acts)) else M.Accept(env, st, req)
    case Drop => if st.dead then st else M.Close(env, st)
  }

  lemma CalledSteps(env: M.Env, st: M.Session, acts: seq<M.Action>)
    requires st.dead || M.Sound(env, st)
    ensures Called(env, st, acts) == if acts == [] then st else Called(env, Acted(env, st, acts[0]), acts[1..])
  {
    if st.dead {
      DeadCallSteps(env, st, acts);
    } else {
      LiveCallSteps(env, st, acts);
    }
  }

  lemma DeadCallSteps(env: M.Env, st: M.Session, acts: seq<M.Action>)
    requires st.dead
    ensures Called(env, st, acts) == if acts == [] then st else Called(env, Acted(env, st, acts[0]), acts[1..])
  {
  }

  lemma LiveCallSteps(env: M.Env, st: M.Session, acts: seq<M.Action>)
    requires !st.dead && M.Sound(env, st)
    ensures Called(env, st, acts) == if acts == [] then st else Called(env, Acted(env, st, acts[0]), acts[1..])
  {
    hide M.Accept, M.Close, M.Sound, M.Extends, M.Settled, M.Unanswered;
    if acts != [] {
      assert M.RunActions(env, st, acts) == M.RunActions(env, Acted(env, st, acts[0]), acts[1..]);
    }
  }

  class BastionSession {
    const env: M.Env
    var buffer: string
    var warmed: bool
    var dead: bool
    var queue: seq<M.Request>
    var current: Option<M.Request>
    var currentId: string
    var currentInside: bool
    var heard: seq<string>      // lines given to the current request's onStream
    var timerArmed: bool
    var drawn: nat              // command ids drawn so far
    ghost var sent: seq<M.Post>
    ghost var accepted: seq<M.Request>
    ghost var done: seq<M.Completion>
    ghost var refused: seq<M.Request>

    ghost function State(): M.Session
      reads this
    {
      M.Session(warmed, dead, queue, current, currentId, currentInside, heard, timerArmed,
                drawn, sent, accepted, done, refused)
    }

    constructor (env: M.Env)
      ensures this.env == env && State() == M.FRESH && buffer == ""
    {
      this.env := env;
      buffer, warmed, dead, queue, current := "", false, false, [], None;
      currentId, currentInside, heard, timerArmed, drawn := "", false, [], false, 0;
      sent, accepted, done, refused := [], [], [], [];
    }

    method Pump()
      requires dead || M.Sound(env, State())
      modifies this
      ensures State() == if old(dead) then old(State()) else M.Pump(env, old(State()))
      ensures buffer == old(buffer)
      decreases M.Total(State()), 2, 0
    {
      hide M.Pump, M.Start, M.Finish, M.TurnAway, M.Settled, M.Ledger, M.Unanswered, M.Extends, M.Sound, Command;
      PumpUnfolds(env, State());
      if dead || current.Some? || queue == [] {
        return;
      }
      TakeNext();
      if !env.writeOk(drawn - 1) {
        FinishCurrent(Some(-1), false);
        return;
      }
      sent := sent + [M.Post(currentId, current.value.script)];
      timerArmed := true;
    }

    /** The assignments with which `pump` puts the head of the queue in flight. */
    method TakeNext()
      requires M.Sound(env, State()) && !dead && current == None && queue != []
      modifies this
      ensures State() == M.Start(env, old(State())) && buffer == old(buffer)
    {
      ghost var was := State();
      StartIs(env, was);
      hide M.Start, M.Ledger, M.Unanswered, M.Extends, M.Sound;
      current, queue := Some(queue[0]), queue[1..];
      currentId, drawn := env.id(drawn), drawn + 1;
      heard, currentInside, timerArmed := [], false, false;
    }

    method FinishCurrent(code: Option<int>, success: bool)
      requires M.Ledger(State()) && current.Some?
      modifies this
      ensures State() == Finished(env, old(State()), code, success) && buffer == old(buffer)
      decreases M.Total(State()), 1, 0
    {
      hide M.Pump, M.RunActions, M.Accept, M.TurnAway, M.Settled, M.Ledger;
      ghost var was := State();
      var c := current.value;
      timerArmed := false;
      done := done + [M.Completion(c, heard, success, code)];
      current, currentId, currentInside, heard := None, "", false, [];
      assert State() == M.Retire(was, code, success);
      M.WeightBounds(c);
      RunCallback(if success then c.onOk.acts else c.onFail.acts);
      DeadPump(env, State());
      Pump();
    }

    /** A callback: everything it does to this session, in order. */
    method RunCallback(acts: seq<M.Action>)
      requires dead || M.Sound(env, State())
      modifies this
      ensures State() == Called(env, old(State()), acts) && buffer == old(buffer)
      decreases M.Total(State()) + M.ActionsWeight(acts), 4, |acts|
    {
      hide M.Pump, M.RunActions, M.Accept, M.TurnAway, M.Settled, M.Ledger, M.Close;
      CalledSteps(env, State(), acts);
      if acts == [] {
        return;
      }
      assert M.ActionsWeight(acts) == M.ActionWeight(acts[0]) + M.ActionsWeight(acts[1..]);
      match acts[0] {
        case Submit(req) =>
          assert M.ActionWeight(acts[0]) == M.Weight(req);
          Enqueue(req);
        case Drop =>
          OnClose();
      }
      RunCallback(acts[1..]);
    }

    method Enqueue(req: M.Request)
      requires dead || M.Sound(env, State())
      modifies this
      ensures buffer == old(buffer)
      ensures if old(dead) then State() == old(State()).(refused := M.TurnAway(old(refused) + [req], req.onFail.acts))
              else State() == M.Accept(env, old(State()), req)
      decreases M.Total(State()) + M.Weight(req), 3, 0
    {
      AcceptIs(env, State(), req);
      hide M.Pump, M.Accept, M.TurnAway, M.Settled, M.Unanswered, M.Extends, M.Sound;
      M.WeightBounds(req);
      if dead {
        refused := refused + [req];
        RunCallback(req.onFail.acts);
        return;
      }
      M.QueueWeightAppend(queue, req);
      queue, accepted := queue + [req], accepted + [req];
      if warmed {
        Pump();
      }
    }

    method OnClose()
      requires dead || M.Sound(env, State())
      modifies this
      ensures buffer == old(buffer)
      ensures State() == if old(dead) then old(State()) else M.Close(env, old(State()))
      decreases M.Total(State()), 3, 0
    {
      if dead {
        return;
      }
      ghost var was := State();
      dead := true;
      if current.Some? {
        FinishCurrent(Some(-1), false);
      }
      FlushQueue();
    }

    /** The rest of `onClose`: the queue is taken whole and its requests fail one by one. */
    method FlushQueue()
      requires dead && current == None
      modifies this
      ensures buffer == old(buffer)
      ensures State() == old(State()).(queue := [], done := old(done) + M.Flushed(old(queue)),
                                       refused := M.TurnAwayAll(old(refused), old(queue)))
      decreases M.Total(State()), 2, 0
    {
      ghost var was := State();
      var left := queue;
      queue := [];
      var i := 0;
      FlushBegins(was);
      hide FailedOne, FlushedTo;
      while i < |left|
        invariant 0 <= i <= |left| && buffer == old(buffer)
        invariant State() == FlushedTo(was, left, i)
      {
        QueueWeightMember(left, i);
        FlushedNext(was, left, i);
        FailOne(left[i]);
        i := i + 1;
      }
      FlushEnds(was, left);
    }

    method FailOne(r: M.Request)
      requires dead && current == None && queue == []
      modifies this
      ensures buffer == old(buffer) && State() == FailedOne(old(State()), r)
      decreases M.Total(State()) + M.Weight(r), 1, 0
    {
      hide M.TurnAway;
      done := done + [M.Completion(r, [], false, None)];
      M.WeightBounds(r);
      RunCallback(r.onFail.acts);
    }

    method OnLine(line: string)
      requires M.Sound(env, State())
      modifies this
      ensures State() == M.OnLine(env, old(State()), line) && buffer == old(buffer)
    {
      hide M.Finish, M.RunActions, M.Pump, M.ExitCodeFrom, M.Settled, M.Extends, M.ExtendsOnline, M.StreamActions,
        Trim, Contains;
      if !warmed {
        if Trim(line) == M.READY_MARKER {
          warmed := true;
          DeadPump(env, State());
          Pump();
        }
        return;
      }
      if current == None {
        return;
      }
      var startMarker, endPrefix := StartMarker(currentId), EndPrefix(currentId);
      if Trim(line) == "echo " + startMarker || Contains(line, endPrefix + "$?") {
        return;
      }
      if Trim(line) == startMarker {
        currentInside := true;
        return;
      }
      if Contains(line, endPrefix) {
        var code := M.ExitCodeFrom(line, endPrefix, 0);
        FinishCurrent(Some(code.GetOr(-1)), code == Some(0));
        return;
      }
      if currentInside {
        var acts := M.StreamActions(current.value, |heard|);
        heard := heard + [line];
        RunCallback(acts);
      }
    }

    method OnData(chunk: string)
      requires M.Sound(env, State())
      modifies this
      ensures M.Link(buffer, State()) == M.OnData(env, M.Link(old(buffer), old(State())), chunk)
    {
      hide M.OnLine, M.OnLines, M.Sound, M.StripReturns, M.StripReturn, M.Settled, Split;
      buffer := buffer + chunk;
      ghost var all, before := buffer, State();
      ghost var seen: seq<string> := [];
      M.NoLines(env, before);
      while NewlineIndex(buffer) != -1
        invariant M.Sound(env, State()) && M.Sound(env, before)
        invariant Split(all) == seen + Split(buffer)
        invariant State() == M.OnLines(env, before, M.StripReturns(seen))
        decreases |buffer|
      {
        var idx := NewlineIndex(buffer);
        var raw := buffer[..idx];
        assert buffer == raw + "\n" + buffer[idx + 1..];
        SplitAtNewline(raw, buffer[idx + 1..]);
        SplitPlain(raw);
        buffer := buffer[idx + 1..];
        HandledOneMore(env, before, seen, raw);
        OnLine(M.StripReturn(raw));
        seen := seen + [raw];
      }
      SplitPlain(buffer);
      assert Init(seen + [buffer]) == seen;
    }

    /** The execution timer fires: fail the command, then nuke the session. */
    method OnTimeout()
      requires M.Sound(env, State())
      modifies this
      ensures State() == M.OnTimeout(env, old(State())) && buffer == old(buffer)
    {
      if timerArmed {
        FinishCurrent(Some(-1), false);
        Kill();
      }
    }

    method Kill()
      requires M.Sound(env, State())
      modifies this
      ensures State() == M.Close(env, old(State())) && buffer == old(buffer)
    {
      OnClose();
    }

    function Load(): nat
      reads this
    {
      |queue| + if current.Some? then 1 else 0
    }
  }

  lemma {:induction false} QueueWeightMember(q: seq<M.Request>, i: nat)
    requires i < |q|
    ensures M.Weight(q[i]) <= M.QueueWeight(q)
  {
    if i > 0 {
      assert q[i] == q[1..][i - 1];
      QueueWeightMember(q[1..], i - 1);
    }
  }

  lemma AcceptIs(env: M.Env, st: M.Session, req: M.Request)
    ensures !st.dead && M.Sound(env, st) ==>
      var s := st.(queue := st.queue + [req], accepted := st.accepted + [req]);
      M.Sound(env, s) && M.Accept(env, st, req) == if s.warmed then M.Pump(env, s) else s
  {
  }

  lemma StartIs(env: M.Env, st: M.Session)
    requires M.Sound(env, st) && !st.dead && st.current == None && st.queue != []
    ensures M.Start(env, st) == st.(queue := st.queue[1..], current := Some(st.queue[0]), id := env.id(st.started),
                                    started := st.started + 1, heard := [], inside := false, armed := false)
  {
  }

  lemma PumpUnfolds(env: M.Env, st: M.Session)
    requires st.dead || M.Sound(env, st)
    ensures !st.dead && (st.current.Some? || st.queue == []) ==> M.Pump(env, st) == st
    ensures !st.dead && st.current == None && st.queue != [] ==>
      var s := M.Start(env, st);
      && (env.writeOk(st.started) ==>
            M.Pump(env, st) == s.(armed := true, sent := s.sent + [M.Post(s.id, st.queue[0].script)]))
      && (!env.writeOk(st.started) ==> M.Pump(env, st) == M.Finish(env, s, Some(-1), false))
  {
  }

  lemma DeadPump(env: M.Env, st: M.Session)
    ensures st.dead && M.Sound(env, st) ==> M.Pump(env, st) == st
  {
  }

  lemma FlushBegins(was: M.Session)
    ensures FlushedTo(was, was.queue, 0) == was.(queue := [])
  {
    assert was.queue[..0] == [];
    assert was.done + M.Flushed([]) == was.done;
  }

  lemma FlushedNext(was: M.Session, left: seq<M.Request>, i: nat)
    requires i < |left|
    ensures FlushedTo(was, left, i + 1) == FailedOne(FlushedTo(was, left, i), left[i])
    ensures var s := FlushedTo(was, left, i); s.dead == was.dead && s.current == was.current && s.queue == []
  {
    hide M.TurnAway;
    assert Init(left[..i + 1]) == left[..i] && Last(left[..i + 1]) == left[i];
    assert was.done + (M.Flushed(left[..i]) + [M.Completion(left[i], [], false, None)])
        == (was.done + M.Flushed(left[..i])) + [M.Completion(left[i], [], false, None)];
  }

  lemma FlushEnds(was: M.Session, left: seq<M.Request>)
    ensures FlushedTo(was, left, |left|)
         == was.(queue := [], done := was.done + M.Flushed(left), refused := M.TurnAwayAll(was.refused, left))
  {
    assert left[..|left|] == left;
  }

  lemma HandledOneMore(env: M.Env, before: M.Session, seen: seq<string>, raw: string)
    requires M.Sound(env, before)
    ensures M.OnLines(env, before, M.StripReturns(seen + [raw]))
         == M.OnLine(env, M.OnLines(env, before, M.StripReturns(seen)), M.StripReturn(raw))
  {
    assert M.StripReturns([raw]) == [M.StripReturn(raw)];
    assert M.StripReturns(seen + [raw]) == M.StripReturns(seen) + [M.StripReturn(raw)];
    M.OnLinesAppend(env, before, M.StripReturns(seen), [M.StripReturn(raw)]);
  }

  /** Work outstanding is what was accepted less what has completed. */
  lemma SessionLoadIsOutstanding(env: M.Env, st: M.Session)
    requires M.Sound(env, st)
    ensures |st.queue| + (if st.current.Some? then 1 else 0) == |st.accepted| - |st.done|
  {
  }
}
