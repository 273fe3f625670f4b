/**
 * One long-lived bastion shell as a state machine: a queue of requests, at most one command
 * in flight, and callbacks that may call straight back into the session.
 *
 * Every handler of the source is one function on the session's value. A callback is the finite
 * list of things it does to the session when it runs, so a chain of re-entrant calls is as deep
 * as the environment makes it, and always ends.
 */
module BastionMux {
  import opened Wrappers
  import opened Text
  import opened Base64
  import opened BastionUpload

  const READY_MARKER := "__AURA_BASTION_READY__"

  /** What a callback does to the session that runs it. */
  datatype Action = Submit(req: Request) | Drop

  datatype Callback = Callback(acts: seq<Action>)

  /**
   * A queued script with its callbacks: `onStream[k]` runs when the k-th output line is handed
   * over, `onOk` or `onFail` when the request completes.
   */
  datatype Request = Request(script: seq<Byte>, onStream: seq<Callback>, onOk: Callback, onFail: Callback)

  /** One `onComplete` call, with the lines `onStream` had been given before it. */
  datatype Completion = Completion(req: Request, heard: seq<string>, success: bool, code: Option<int>)

  /** A command as it is written: the text is `Command(id, script)`. */
  datatype Post = Post(id: string, script: seq<Byte>)

  /** Outcomes the session does not choose: the random command ids and whether a write is accepted. */
  datatype Env = Env(id: nat -> string, writeOk: nat -> bool)

  /**
   * `accepted`, `done` and `refused` are the history: requests queued while the session was
   * alive, completions of those in the order they happened, and requests turned away dead.
   * `sent` is every command the shell took.
   */
  datatype Session = Session(
    warmed: bool, dead: bool,
    queue: seq<Request>, current: Option<Request>, id: string, inside: bool, heard: seq<string>, armed: bool,
    started: nat, sent: seq<Post>,
    accepted: seq<Request>, done: seq<Completion>, refused: seq<Request>)

  /** A session with the unfinished line it has read so far. */
  datatype Link = Link(buffer: string, session: Session)

  const FRESH := Session(false, false, [], None, "", false, [], false, 0, [], [], [], [])

  /* ---------- how much callback work is left ---------- */

  function Weight(r: Request): nat
    decreases r
  {
    1 + StreamWeight(r.onStream) + CallbackWeight(r.onOk) + CallbackWeight(r.onFail)
  }

  function StreamWeight(s: seq<Callback>): nat
    decreases s
  {
    if s == [] then 0 else CallbackWeight(s[0]) + StreamWeight(s[1..])
  }

  function CallbackWeight(c: Callback): nat
    decreases c
  {
    ActionsWeight(c.acts)
  }

  function ActionsWeight(acts: seq<Action>): nat
    decreases acts
  {
    if acts == [] then 0 else ActionWeight(acts[0]) + ActionsWeight(acts[1..])
  }

  function ActionWeight(a: Action): nat
    decreases a
  {
    match a
    case Submit(req) => Weight(req)
    case Drop => 0
  }

  function QueueWeight(q: seq<Request>): nat {
    if q == [] then 0 else Weight(q[0]) + QueueWeight(q[1..])
  }

  lemma WeightBounds(r: Request)
    ensures ActionsWeight(r.onOk.acts) < Weight(r) && ActionsWeight(r.onFail.acts) < Weight(r)
  {
    assert CallbackWeight(r.onOk) == ActionsWeight(r.onOk.acts);
    assert CallbackWeight(r.onFail) == ActionsWeight(r.onFail.acts);
  }

  lemma {:induction false} QueueWeightAppend(q: seq<Request>, r: Request)
    ensures QueueWeight(q + [r]) == QueueWeight(q) + Weight(r)
  {
    if q == [] {
      assert q + [r] == [r];
    } else {
      assert (q + [r])[1..] == q[1..] + [r];
      QueueWeightAppend(q[1..], r);
    }
  }

  function Total(st: Session): nat {
    QueueWeight(st.queue) + if st.current.Some? then Weight(st.current.value) else 0
  }

  /* ---------- what holds of every session ---------- */

  function Requests(done: seq<Completion>): (r: seq<Request>)
    ensures |r| == |done|
  {
    if done == [] then [] else Requests(Init(done)) + [Last(done).req]
  }

  lemma RequestsAppend(done: seq<Completion>, c: Completion)
    ensures Requests(done + [c]) == Requests(done) + [c.req]
  {
    assert Init(done + [c]) == done;
  }

  lemma {:induction false} RequestsConcat(a: seq<Completion>, b: seq<Completion>)
    ensures Requests(a + b) == Requests(a) + Requests(b)
  {
    if b == [] {
      assert a + b == a;
    } else {
      assert a + b == (a + Init(b)) + [Last(b)];
      RequestsAppend(a + Init(b), Last(b));
      RequestsConcat(a, Init(b));
    }
  }

  function InFlight(st: Session): seq<Request> {
    if st.current.Some? then [st.current.value] else []
  }

  /**
   * The ledger: what was accepted is, in order, what has completed, then what is in flight,
   * then what is queued. Nothing is lost, doubled or overtaken. While the session lives, every id
   * drawn is that of a command completed or in flight.
   */
  predicate Ledger(st: Session) {
    && st.accepted == Requests(st.done) + InFlight(st) + st.queue
    && (!st.dead ==> st.started == |st.done| + |InFlight(st)|)
  }

  /** A dead session holds nothing. */
  predicate Emptied(st: Session) {
    st.dead ==> st.queue == [] && st.current == None
  }

  /** The command in flight is the last one the shell was sent, with its request's script under its id. */
  predicate Posted(st: Session) {
    st.current.Some? ==> st.sent != [] && Last(st.sent) == Post(st.id, st.current.value.script)
  }

  /**
   * The ledger balances, the timer runs exactly while a command does, its id is the last drawn, and
   * it is what was sent last.
   */
  predicate Sound(env: Env, st: Session) {
    && Ledger(st)
    && Emptied(st)
    && (st.armed <==> st.current.Some?)
    && (st.current.Some? ==> st.started > 0 && st.id == env.id(st.started - 1))
    && Posted(st)
  }

  /** No live session leaves work queued with nothing running. */
  predicate Settled(st: Session) {
    st.dead || st.current.Some? || st.queue == []
  }

  /** A command in flight has not been answered yet. */
  predicate Unanswered(st: Session) {
    st.current.Some? ==> !st.inside && st.heard == []
  }

  /** History only grows, and queue handling does not touch warm-up. */
  predicate Extends(before: Session, after: Session) {
    && before.accepted <= after.accepted
    && before.done <= after.done
    && before.refused <= after.refused
    && before.sent <= after.sent && before.started <= after.started
    && after.warmed == before.warmed
    && (before.dead ==> after.dead)
  }

  ghost predicate WritesSucceed(env: Env) {
    forall n: nat :: env.writeOk(n)
  }

  /* ---------- a session that has died ---------- */

  /**
   * What callbacks can do to a dead session: every request they submit is turned away, and its
   * failure callback runs at once.
   */
  function TurnAway(refused: seq<Request>, acts: seq<Action>): (r: seq<Request>)
    ensures refused <= r
    decreases ActionsWeight(acts), |acts|
  {
    if acts == [] then refused
    else
      match acts[0]
      case Drop => TurnAway(refused, acts[1..])
      case Submit(req) =>
        WeightBounds(req);
        assert ActionWeight(acts[0]) == Weight(req);
        TurnAway(TurnAway(refused + [req], req.onFail.acts), acts[1..])
  }

  /** The completions a close hands to what was still queued. */
  function Flushed(queue: seq<Request>): (r: seq<Completion>)
    ensures Requests(r) == queue
  {
    if queue == [] then []
    else
      RequestsAppend(Flushed(Init(queue)), Completion(Last(queue), [], false, None));
      Flushed(Init(queue)) + [Completion(Last(queue), [], false, None)]
  }

  /** The failure callbacks of `queue`, run in order on the dead session. */
  function TurnAwayAll(refused: seq<Request>, queue: seq<Request>): (r: seq<Request>)
    ensures refused <= r
  {
    if queue == [] then refused
    else TurnAway(TurnAwayAll(refused, Init(queue)), Last(queue).onFail.acts)
  }

  /** The bookkeeping half of `finishCurrent`: nothing is in flight and `onComplete` is about to run. */
  function Retire(st: Session, code: Option<int>, success: bool): (r: Session)
    requires Ledger(st) && st.current.Some?
    ensures Ledger(r) && r.current == None && !r.armed && r.queue == st.queue && r.dead == st.dead
    ensures Extends(st, r) && r.refused == st.refused && r.accepted == st.accepted
    ensures r.done == st.done + [Completion(st.current.value, st.heard, success, code)]
  {
    var completion := Completion(st.current.value, st.heard, success, code);
    RequestsAppend(st.done, completion);
    st.(current := None, id := "", inside := false, heard := [], armed := false, done := st.done + [completion])
  }

  /** What the failure callbacks of a close submit again, all of it turned away. */
  function CloseRefusals(st: Session): (r: seq<Request>)
    ensures st.refused <= r
  {
    TurnAwayAll(
      if st.current.Some? then TurnAway(st.refused, st.current.value.onFail.acts) else st.refused,
      st.queue)
  }

  /** The half of a close that follows the command in flight: the queue, taken whole, fails in order. */
  function Flush(st: Session, refused: seq<Request>): (r: Session)
    requires Ledger(st) && st.current == None && st.refused <= refused
    ensures Ledger(r) && Emptied(r) && r.dead && r.current == None && r.armed == st.armed
    ensures Extends(st, r) && r.accepted == st.accepted && Requests(r.done) == st.accepted && r.sent == st.sent
    ensures r.done == st.done + Flushed(st.queue)
  {
    RequestsConcat(st.done, Flushed(st.queue));
    st.(dead := true, queue := [], done := st.done + Flushed(st.queue), refused := refused)
  }

  /** What a command in flight is told when its session fails: the lines so far, and -1. */
  function FailedInFlight(st: Session): seq<Completion> {
    if st.current.Some? then [Completion(st.current.value, st.heard, false, Some(-1))] else []
  }

  /** `onClose`: fail the command in flight, then everything queued, once each. */
  function Close(env: Env, st: Session): (r: Session)
    requires Sound(env, st)
    ensures Sound(env, r) && Extends(st, r) && r.dead && Total(r) <= Total(st)
    ensures st.dead ==> r == st
    ensures r.accepted == st.accepted && Requests(r.done) == st.accepted && r.sent == st.sent
    ensures !st.dead ==> r.done == st.done + FailedInFlight(st) + Flushed(st.queue)
  {
    if st.dead then st
    else Flush(if st.current.Some? then Retire(st, Some(-1), false) else st, CloseRefusals(st))
  }

  /* ---------- a session that is alive ---------- */

  /** The head of the queue becomes the command in flight, under a freshly drawn id. */
  function Start(env: Env, st: Session): (r: Session)
    requires Sound(env, st) && !st.dead && st.current == None && st.queue != []
    ensures Ledger(r) && r.current == Some(st.queue[0]) && !r.armed && !r.dead
    ensures r.started == st.started + 1 && r.id == env.id(st.started) && Unanswered(r)
    ensures Extends(st, r) && r.done == st.done && r.accepted == st.accepted && r.sent == st.sent
    ensures Total(r) == Total(st) && r.queue == st.queue[1..]
  {
    assert st.queue == [st.queue[0]] + st.queue[1..];
    st.(queue := st.queue[1..], current := Some(st.queue[0]), id := env.id(st.started),
        started := st.started + 1, heard := [], inside := false, armed := false)
  }

  /** `pump`: start the next queued request, if any may start. */
  function Pump(env: Env, st: Session): (r: Session)
    requires Sound(env, st)
    ensures Sound(env, r) && Settled(r) && Extends(st, r) && Total(r) <= Total(st)
    ensures st.current == None ==> Unanswered(r)
    ensures WritesSucceed(env) && !r.dead ==> r.done == st.done
    decreases Total(st), 2, 0
  {
    hide Start, Finish, RunActions;
    if st.dead || st.current.Some? || st.queue == [] then st
    else
      var s := Start(env, st);
      if env.writeOk(st.started) then s.(armed := true, sent := s.sent + [Post(s.id, s.current.value.script)])
      else Finish(env, s, Some(-1), false)
  }

  /** `finishCurrent` on a live session: retire the command, run its callback, start the next. */
  function Finish(env: Env, st: Session, code: Option<int>, success: bool): (r: Session)
    requires Ledger(st) && st.current.Some? && !st.dead
    ensures Sound(env, r) && Settled(r) && Extends(st, r) && Total(r) < Total(st)
    ensures Unanswered(r)
    ensures st.done + [Completion(st.current.value, st.heard, success, code)] <= r.done
    ensures WritesSucceed(env) && !r.dead ==> |r.done| == |st.done| + 1
    decreases Total(st), 1, 0
  {
    var c := st.current.value;
    var s := Retire(st, code, success);
    WeightBounds(c);
    Pump(env, RunActions(env, s, if success then c.onOk.acts else c.onFail.acts))
  }

  /** A callback body: each action calls back into the session. */
  function RunActions(env: Env, st: Session, acts: seq<Action>): (r: Session)
    requires Sound(env, st)
    ensures Sound(env, r) && Extends(st, r) && Total(r) <= Total(st) + ActionsWeight(acts)
    ensures Unanswered(st) ==> Unanswered(r)
    ensures st.warmed && Settled(st) ==> Settled(r)
    ensures WritesSucceed(env) && !r.dead ==> r.done == st.done
    decreases Total(st) + ActionsWeight(acts), 4, |acts|
  {
    if st.dead then st.(refused := TurnAway(st.refused, acts))
    else if acts == [] then st
    else
      assert ActionsWeight(acts) == ActionWeight(acts[0]) + ActionsWeight(acts[1..]);
      assert acts[0].Submit? ==> ActionWeight(acts[0]) == Weight(acts[0].req);
      RunActions(env, if acts[0].Submit? then Accept(env, st, acts[0].req) else Close(env, st), acts[1..])
  }

  /** `enqueue` on a live session. */
  function Accept(env: Env, st: Session, req: Request): (r: Session)
    requires Sound(env, st) && !st.dead
    ensures Sound(env, r) && Extends(st, r) && Total(r) <= Total(st) + Weight(req)
    ensures st.accepted + [req] <= r.accepted
    ensures st.warmed ==> Settled(r)
    ensures Unanswered(st) ==> Unanswered(r)
    ensures WritesSucceed(env) && !r.dead ==> r.done == st.done
    decreases Total(st) + Weight(req), 3, 0
  {
    QueueWeightAppend(st.queue, req);
    var s := st.(queue := st.queue + [req], accepted := st.accepted + [req]);
    if s.warmed then Pump(env, s) else s
  }

  /** `enqueue`. A dead session completes the request at once, with failure. */
  function Enqueue(env: Env, st: Session, req: Request): (r: Session)
    requires Sound(env, st)
    ensures Sound(env, r) && Extends(st, r)
    ensures if st.dead then st.refused + [req] <= r.refused && r == st.(refused := r.refused)
            else st.accepted + [req] <= r.accepted
    ensures !st.dead && st.warmed ==> Settled(r)
  {
    if st.dead then
      assert st.refused + [req] <= TurnAway(st.refused + [req], req.onFail.acts);
      st.(refused := TurnAway(st.refused + [req], req.onFail.acts))
    else Accept(env, st, req)
  }

  /* ---------- lines from the shell ---------- */

  /** The exit code after the first `endPrefix` that a number follows, from position `i` on. */
  function ExitCodeFrom(line: string, endPrefix: string, i: nat): Option<int>
    requires i <= |line|
    decreases |line| - i
  {
    if OccursAt(line, endPrefix, i) && ParseInteger(line[i + |endPrefix|..]).Some? then
      ParseInteger(line[i + |endPrefix|..])
    else if i == |line| then None
    else ExitCodeFrom(line, endPrefix, i + 1)
  }

  predicate IsEcho(line: string, id: string) {
    Trim(line) == EchoStart(id) || Contains(line, EndPrefix(id) + "$?")
  }

  /** What the k-th delivered line makes its callback do. */
  function StreamActions(req: Request, k: nat): seq<Action> {
    if k < |req.onStream| then req.onStream[k].acts else []
  }

  /** `onLine`. */
  function OnLine(env: Env, st: Session, line: string): (r: Session)
    requires Sound(env, st)
    ensures Sound(env, r) && ExtendsOnline(st, r)
    ensures (st.warmed ==> Settled(st)) ==> (r.warmed ==> Settled(r))
  {
    hide Pump, Finish, RunActions, IsEcho, Contains, Trim, ExitCodeFrom;
    if !st.warmed then
      if Trim(line) == READY_MARKER then Pump(env, st.(warmed := true)) else st
    else if st.current == None || IsEcho(line, st.id) then st
    else if Trim(line) == StartMarker(st.id) then st.(inside := true)
    else if Contains(line, EndPrefix(st.id)) then
      var code := ExitCodeFrom(line, EndPrefix(st.id), 0);
      Finish(env, st, Some(code.GetOr(-1)), code == Some(0))
    else if st.inside then
      RunActions(env, st.(heard := st.heard + [line]), StreamActions(st.current.value, |st.heard|))
    else st
  }

  /** As `Extends`, but a line may be the one that warms the session up. */
  predicate ExtendsOnline(before: Session, after: Session) {
    Extends(before, after.(warmed := before.warmed)) && (before.warmed ==> after.warmed)
  }

  function OnLines(env: Env, st: Session, lines: seq<string>): (r: Session)
    requires Sound(env, st)
    ensures Sound(env, r) && ExtendsOnline(st, r)
    ensures (st.warmed ==> Settled(st)) ==> (r.warmed ==> Settled(r))
    decreases |lines|
  {
    if lines == [] then st else OnLines(env, OnLine(env, st, lines[0]), lines[1..])
  }

  /** `raw.replace(/\r$/, "")`. */
  function StripReturn(raw: string): string {
    if raw != "" && Last(raw) == '\r' then Init(raw) else raw
  }

  function StripReturns(raws: seq<string>): (r: seq<string>)
    ensures |r| == |raws|
    ensures forall i :: 0 <= i < |r| ==> r[i] == StripReturn(raws[i])
  {
    if raws == [] then [] else [StripReturn(raws[0])] + StripReturns(raws[1..])
  }

  lemma {:induction false} OnLinesAppend(env: Env, st: Session, a: seq<string>, b: seq<string>)
    requires Sound(env, st)
    ensures OnLines(env, st, a + b) == OnLines(env, OnLines(env, st, a), b)
    decreases |a|
  {
    if a == [] {
      assert a + b == b;
    } else {
      assert (a + b)[0] == a[0] && (a + b)[1..] == a[1..] + b;
      OnLinesAppend(env, OnLine(env, st, a[0]), a[1..], b);
    }
  }

  lemma NoLines(env: Env, st: Session)
    requires Sound(env, st)
    ensures OnLines(env, st, StripReturns([])) == st
  {
  }

  /** `onData`: complete lines are handled, the unfinished rest waits in the buffer. */
  function OnData(env: Env, l: Link, chunk: string): (r: Link)
    requires Sound(env, l.session)
    ensures Sound(env, r.session) && ExtendsOnline(l.session, r.session)
    ensures (l.session.warmed ==> Settled(l.session)) ==> (r.session.warmed ==> Settled(r.session))
  {
    var raws := Split(l.buffer + chunk);
    Link(Last(raws), OnLines(env, l.session, StripReturns(Init(raws))))
  }

  /** The execution timer: the command fails, then the whole session is killed. */
  function OnTimeout(env: Env, st: Session): (r: Session)
    requires Sound(env, st)
    ensures Sound(env, r) && Extends(st, r)
    ensures if st.armed then r.dead && st.done + FailedInFlight(st) <= r.done else r == st
  {
    hide Close, Finish;
    if !st.armed then st
    else Close(env, Finish(env, st, Some(-1), false))
  }

  /* ---------- whole runs ---------- */

  datatype Event =
    | Enqueued(req: Request)
    | Data(chunk: string)
    | Timeout
    | WarmupTimeout
    | Closed
    | Killed

  function Step(env: Env, l: Link, ev: Event): Link
    requires Sound(env, l.session)
  {
    match ev
    case Enqueued(req) => l.(session := Enqueue(env, l.session, req))
    case Data(chunk) => OnData(env, l, chunk)
    case Timeout => l.(session := OnTimeout(env, l.session))
    case WarmupTimeout => if l.session.warmed then l else l.(session := Close(env, l.session))
    case Closed => l.(session := Close(env, l.session))
    case Killed => l.(session := Close(env, l.session))
  }

  /** What holds of a session whenever control is back in the event loop. */
  predicate AtRest(env: Env, st: Session) {
    Sound(env, st) && (st.warmed ==> Settled(st))
  }

  lemma FreshAtRest(env: Env)
    ensures AtRest(env, FRESH)
  {
  }

  lemma StepKeepsRest(env: Env, l: Link, ev: Event)
    requires AtRest(env, l.session)
    ensures AtRest(env, Step(env, l, ev).session)
    ensures ExtendsOnline(l.session, Step(env, l, ev).session)
  {
  }

  /**
   * What ends a session: a close or a kill, at any time; the warm-up timer, if it is not warm yet; the
   * command's timer, if one is running. Then nothing is left in it and all it accepted has completed.
   * A timer that is not running any more does nothing.
   */
  lemma EventEndsSession(env: Env, l: Link, ev: Event)
    requires AtRest(env, l.session)
    ensures var r := Step(env, l, ev).session;
      && (ev == Closed || ev == Killed || (ev == WarmupTimeout && !l.session.warmed)
          || (ev == Timeout && l.session.current.Some?)
          ==> r.dead && r.queue == [] && r.current == None && Requests(r.done) == r.accepted)
      && ((ev == WarmupTimeout && l.session.warmed) || (ev == Timeout && l.session.current == None)
          ==> Step(env, l, ev) == l)
  {
    hide Close, Finish;
    var r := Step(env, l, ev).session;
    assert r.dead ==> Requests(r.done) + [] + [] == Requests(r.done);
  }

  function Run(env: Env, l: Link, events: seq<Event>): (r: Link)
    requires AtRest(env, l.session)
    ensures AtRest(env, r.session)
    decreases |events|
  {
    if events == [] then l
    else
      StepKeepsRest(env, l, events[0]);
      Run(env, Step(env, l, events[0]), events[1..])
  }

  /**
   * Over every run from a fresh session, whatever the callbacks, the writes and the order of
   * events: each accepted request is completed once, in flight, or queued, in the order of
   * acceptance; the timer runs exactly while a command does; a warm live session never leaves
   * work waiting behind nothing; a dead one holds nothing and has completed all it accepted.
   */
  lemma RunIsExactlyOnce(env: Env, events: seq<Event>)
    ensures var r := Run(env, Link("", FRESH), events).session;
      && r.accepted == Requests(r.done) + InFlight(r) + r.queue
      && (r.armed <==> r.current.Some?)
      && Posted(r)
      && (r.warmed && !r.dead && r.current == None ==> r.queue == [])
      && (r.dead ==> r.queue == [] && r.current == None && !r.armed && Requests(r.done) == r.accepted)
  {
    var r := Run(env, Link("", FRESH), events).session;
    if r.dead {
      assert Requests(r.done) + [] + [] == Requests(r.done);
    }
  }
}
