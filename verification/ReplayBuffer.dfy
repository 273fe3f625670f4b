/**
 * The replay buffer between an agent's stream and the browsers that read it: events are kept,
 * readers replay them from the start and then wait to be woken for more.
 */
module ReplayBuffer {
  datatype Event = Stream(data: string) | Reply(data: string)

  /**
   * Where a reader is: able to run, parked on a waiter, returned after yielding a reply, or
   * returned through the `buf.done` branch with nothing left to yield.
   */
  datatype Phase = Ready | Parked | Finished | RanDry

  datatype Reader = Reader(phase: Phase, index: nat, output: seq<Event>)

  type ReaderId = nat

  datatype Buffer = Buffer(events: seq<Event>, waiters: seq<ReaderId>, done: bool, readers: map<ReaderId, Reader>)

  datatype Action = Push(e: Event) | Open(r: ReaderId) | Advance(r: ReaderId)

  const EMPTY := Buffer([], [], false, map[])

  /* ---------- the steps ---------- */

  function Woken(readers: map<ReaderId, Reader>, waiting: seq<ReaderId>): map<ReaderId, Reader> {
    map r | r in readers :: if r in waiting then readers[r].(phase := Ready) else readers[r]
  }

  lemma WokenNext(readers: map<ReaderId, Reader>, waiting: seq<ReaderId>, i: nat)
    requires i < |waiting| && waiting[i] in readers
    ensures var w := waiting[i];
      Woken(readers, waiting[..i + 1]) ==
        Woken(readers, waiting[..i])[w := Woken(readers, waiting[..i])[w].(phase := Ready)]
  {
    assert waiting[..i + 1] == waiting[..i] + [waiting[i]];
  }

  /** `pushEvent`: append, note a reply, wake everyone who waits. */
  function Pushed(b: Buffer, e: Event): Buffer {
    Buffer(b.events + [e], [], b.done || e.Reply?, Woken(b.readers, b.waiters))
  }

  function Opened(b: Buffer, r: ReaderId): Buffer {
    if r in b.readers then b else b.(readers := b.readers[r := Reader(Ready, 0, [])])
  }

  /** One turn of the generator's loop. */
  function Advanced(b: Buffer, r: ReaderId): Buffer {
    if r !in b.readers || b.readers[r].phase != Ready then b
    else
      var s := b.readers[r];
      if s.index < |b.events| then
        var e := b.events[s.index];
        b.(readers := b.readers[r := Reader(if e.Reply? then Finished else Ready, s.index + 1, s.output + [e])])
      else if b.done then
        b.(readers := b.readers[r := s.(phase := RanDry)])
      else
        b.(waiters := b.waiters + [r], readers := b.readers[r := s.(phase := Parked)])
  }

  function Step(b: Buffer, a: Action): Buffer {
    match a
    case Push(e) => Pushed(b, e)
    case Open(r) => Opened(b, r)
    case Advance(r) => Advanced(b, r)
  }

  function Run(b: Buffer, actions: seq<Action>): Buffer {
    if actions == [] then b else Step(Run(b, actions[..|actions| - 1]), actions[|actions| - 1])
  }

  /* ---------- what every interleaving keeps ---------- */

  predicate NoReply(events: seq<Event>) {
    forall i :: 0 <= i < |events| ==> events[i].Stream?
  }

  /** A reader has yielded a prefix of the buffer, stops at the first reply, and parks only when it must. */
  predicate Consistent(b: Buffer, s: Reader) {
    && s.index <= |b.events| && s.output == b.events[..s.index]
    && (match s.phase
        case Ready => NoReply(b.events[..s.index])
        case Parked => s.index == |b.events| && !b.done
        case Finished => s.index > 0 && b.events[s.index - 1].Reply? && NoReply(b.events[..s.index - 1])
        case RanDry => false)
  }

  predicate Inv(b: Buffer) {
    && (b.done <==> !NoReply(b.events))
    && (forall r :: r in b.readers ==> Consistent(b, b.readers[r]))
    && (forall r :: r in b.readers && b.readers[r].phase == Parked ==> r in b.waiters)
    && (forall r :: r in b.waiters ==> r in b.readers && b.readers[r].phase == Parked)
  }

  lemma WaitersKnown(b: Buffer)
    requires Inv(b)
    ensures forall r :: r in b.waiters ==> r in b.readers
  {
  }

  lemma PushKeeps(b: Buffer, e: Event)
    requires Inv(b)
    ensures Inv(Pushed(b, e))
  {
    var b' := Pushed(b, e);
    assert b'.events[|b.events|] == e;
    assert forall i :: 0 <= i < |b.events| ==> b'.events[i] == b.events[i];
    forall r | r in b'.readers ensures Consistent(b', b'.readers[r]) {
      var s := b.readers[r];
      assert Consistent(b, s);
      assert b'.events[..s.index] == b.events[..s.index];
      if s.phase == Finished {
        assert b'.events[..s.index - 1] == b.events[..s.index - 1];
      }
    }
  }

  lemma AdvanceKeeps(b: Buffer, r: ReaderId)
    requires Inv(b)
    ensures Inv(Advanced(b, r))
  {
    var b' := Advanced(b, r);
    if r in b.readers && b.readers[r].phase == Ready {
      TurnConsistent(b, r);
      assert b'.events == b.events && b'.done == b.done;
      hide NoReply;
      forall q | q in b'.readers ensures Consistent(b', b'.readers[q]) {
        if q != r {
          assert b'.readers[q] == b.readers[q];
        }
      }
    }
  }

  lemma TurnConsistent(b: Buffer, r: ReaderId)
    requires Inv(b) && r in b.readers && b.readers[r].phase == Ready
    ensures Consistent(b, Advanced(b, r).readers[r])
  {
    var s := b.readers[r];
    assert Consistent(b, s);
    if s.index < |b.events| {
      assert b.events[..s.index + 1] == b.events[..s.index] + [b.events[s.index]];
    } else {
      assert b.events[..s.index] == b.events;
    }
  }

  /** The invariant holds after every interleaving of pushes, opens and reader turns. */
  lemma {:induction false} RunKeeps(actions: seq<Action>)
    ensures Inv(Run(EMPTY, actions))
  {
    if actions != [] {
      var front, a := actions[..|actions| - 1], actions[|actions| - 1];
      RunKeeps(front);
      match a
      case Push(e) => PushKeeps(Run(EMPTY, front), e);
      case Open(r) =>
      case Advance(r) => AdvanceKeeps(Run(EMPTY, front), r);
    }
  }

  /* ---------- what readers get ---------- */

  /** Everything up to and including the first reply. */
  function UpToReply(events: seq<Event>): seq<Event> {
    if events == [] then []
    else if events[0].Reply? then [events[0]]
    else [events[0]] + UpToReply(events[1..])
  }

  lemma {:induction false} UpToReplyAt(events: seq<Event>, n: nat)
    requires n < |events| && events[n].Reply? && NoReply(events[..n])
    ensures UpToReply(events) == events[..n + 1]
  {
    if n == 0 {
      assert events[..1] == [events[0]];
    } else {
      assert events[0] == events[..n][0];
      assert events[1..][..n - 1] == events[..n][1..];
      UpToReplyAt(events[1..], n - 1);
      assert events[..n + 1] == [events[0]] + events[1..][..n];
    }
  }

  /**
   * In every reachable state each reader's output is a prefix of the events; one that has returned
   * has yielded exactly what lies up to the first reply, so all of them agree; one that is parked
   * has read everything and no reply has come; none has returned empty-handed.
   */
  lemma ReadersSeePrefixes(actions: seq<Action>, r: ReaderId)
    requires r in Run(EMPTY, actions).readers
    ensures var b := Run(EMPTY, actions);
      var s := b.readers[r];
      && s.output <= b.events
      && (s.phase == Finished ==> s.output == UpToReply(b.events) && b.done)
      && (s.phase == Parked ==> s.output == b.events && !b.done && r in b.waiters)
      && s.phase != RanDry
  {
    RunKeeps(actions);
    var b := Run(EMPTY, actions);
    var s := b.readers[r];
    assert Consistent(b, s);
    if s.phase == Finished {
      UpToReplyAt(b.events, s.index - 1);
      assert !NoReply(b.events);
    }
  }

  /** A push wakes every parked reader: no wake-up is lost. */
  lemma NoLostWakeup(actions: seq<Action>, e: Event, r: ReaderId)
    requires r in Run(EMPTY, actions).readers
    ensures var b := Pushed(Run(EMPTY, actions), e);
      r in b.readers && b.readers[r].phase != Parked
  {
    RunKeeps(actions);
  }

  /** `n` turns of one reader. */
  function Turns(b: Buffer, r: ReaderId, n: nat): Buffer
    decreases n
  {
    if n == 0 then b else Turns(Advanced(b, r), r, n - 1)
  }

  /**
   * Once a reply has been pushed, every reader, left to itself for as many turns as there are
   * events, returns with the same sequence.
   */
  lemma {:induction false} EveryReaderFinishes(b: Buffer, r: ReaderId, n: nat)
    requires Inv(b) && b.done && r in b.readers && n >= |b.events| - b.readers[r].index
    ensures var b' := Turns(b, r, n);
      r in b'.readers && b'.readers[r].phase == Finished && b'.readers[r].output == UpToReply(b.events)
    decreases n
  {
    var s := b.readers[r];
    assert Consistent(b, s);
    if s.phase == Finished {
      UpToReplyAt(b.events, s.index - 1);
      NoMoreTurns(b, r, n);
    } else {
      TurnMakesProgress(b, r);
      EveryReaderFinishes(Advanced(b, r), r, n - 1);
    }
  }

  lemma TurnMakesProgress(b: Buffer, r: ReaderId)
    requires Inv(b) && b.done && r in b.readers && b.readers[r].phase != Finished
    ensures b.readers[r].index < |b.events|
    ensures var b' := Advanced(b, r);
      Inv(b') && b'.done && b'.events == b.events && r in b'.readers && b'.readers[r].index == b.readers[r].index + 1
  {
    var s := b.readers[r];
    assert Consistent(b, s);
    assert b.events[..|b.events|] == b.events;
    AdvanceKeeps(b, r);
  }

  lemma {:induction false} NoMoreTurns(b: Buffer, r: ReaderId, n: nat)
    requires r in b.readers && b.readers[r].phase == Finished
    ensures Turns(b, r, n) == b
    decreases n
  {
    if n > 0 {
      NoMoreTurns(b, r, n - 1);
    }
  }

  /* ---------- from opening to the end ---------- */

  /**
   * Opening a reader for the first time makes one that has yielded nothing and starts at the first
   * event, whatever has been pushed already; opening it again changes nothing.
   */
  lemma OpenStartsAtZero(b: Buffer, r: ReaderId)
    ensures var b' := Step(b, Open(r));
      && b'.events == b.events && b'.waiters == b.waiters && b'.done == b.done
      && (forall q :: q != r ==>
            (q in b'.readers <==> q in b.readers) && (q in b.readers ==> b'.readers[q] == b.readers[q]))
      && r in b'.readers
      && (if r in b.readers then b' == b
          else b'.readers[r].phase == Ready && b'.readers[r].index == 0 && b'.readers[r].output == [])
  {
  }

  /** The events pushed in a run, in order. */
  function PushedIn(actions: seq<Action>): seq<Event> {
    if actions == [] then []
    else
      var a := actions[|actions| - 1];
      PushedIn(actions[..|actions| - 1]) + if a.Push? then [a.e] else []
  }

  /**
   * In every run the buffer holds what was pushed, in order, it knows whether a reply was among it,
   * and its readers are exactly those that were opened.
   */
  lemma {:induction false} RunHolds(actions: seq<Action>)
    ensures var b := Run(EMPTY, actions);
      && b.events == PushedIn(actions)
      && (b.done <==> exists e :: e in PushedIn(actions) && e.Reply?)
      && forall r :: r in b.readers <==> Open(r) in actions
  {
    if actions != [] {
      var front, a := actions[..|actions| - 1], actions[|actions| - 1];
      RunHolds(front);
      assert actions == front + [a];
      var b := Run(EMPTY, front);
      forall r ensures r in Step(b, a).readers <==> r in b.readers || a == Open(r) {
      }
      if a.Push? {
        assert a.e in PushedIn(actions);
        assert forall e :: e in PushedIn(front) ==> e in PushedIn(actions);
      }
    }
  }

  lemma {:induction false} RunAppend(b: Buffer, first: seq<Action>, second: seq<Action>)
    ensures Run(b, first + second) == Run(Run(b, first), second)
  {
    if second == [] {
      assert first + second == first;
    } else {
      var all := first + second;
      assert all[..|all| - 1] == first + second[..|second| - 1];
      RunAppend(b, first, second[..|second| - 1]);
    }
  }

  /** How many turns the reader gets. */
  function TurnsOf(actions: seq<Action>, r: ReaderId): nat {
    multiset(actions)[Advance(r)]
  }

  lemma TurnsOfNext(actions: seq<Action>, r: ReaderId)
    requires actions != []
    ensures var n := |actions| - 1;
      TurnsOf(actions, r) == TurnsOf(actions[..n], r) + if actions[n] == Advance(r) then 1 else 0
  {
    assert actions == actions[..|actions| - 1] + [actions[|actions| - 1]];
  }

  /** The reader has returned, or has got at least this far. */
  predicate Reached(b: Buffer, r: ReaderId, index: nat) {
    r in b.readers && (b.readers[r].phase == Finished || b.readers[r].index >= index)
  }

  /** Once there is a reply, nothing throws a reader back and each of its turns takes it on. */
  lemma StepAdvances(b: Buffer, a: Action, r: ReaderId, index: nat)
    requires Inv(b) && b.done && Reached(b, r, index)
    ensures var b' := Step(b, a);
      Inv(b') && b'.done && Reached(b', r, index + if a == Advance(r) then 1 else 0)
  {
    assert Consistent(b, b.readers[r]);
    match a
    case Push(e) => PushKeeps(b, e);
    case Open(q) =>
    case Advance(q) =>
      AdvanceKeeps(b, q);
      if q == r && b.readers[r].phase != Finished {
        TurnMakesProgress(b, r);
      }
  }

  lemma {:induction false} TurnsAdvance(b: Buffer, actions: seq<Action>, r: ReaderId)
    requires Inv(b) && b.done && r in b.readers
    ensures var b' := Run(b, actions);
      Inv(b') && b'.done && Reached(b', r, TurnsOf(actions, r))
  {
    hide Inv, Step, TurnsOf;
    if actions != [] {
      var n := |actions| - 1;
      TurnsAdvance(b, actions[..n], r);
      TurnsOfNext(actions, r);
      StepAdvances(Run(b, actions[..n]), actions[n], r, TurnsOf(actions[..n], r));
    } else {
      assert TurnsOf([], r) == 0 by { NoTurns(r); }
    }
  }

  lemma NoTurns(r: ReaderId)
    ensures TurnsOf([], r) == 0
  {
  }

  lemma {:induction false} PushedAppend(first: seq<Action>, second: seq<Action>) returns (more: seq<Event>)
    ensures PushedIn(first + second) == PushedIn(first) + more
  {
    if second == [] {
      assert first + second == first;
      more := [];
    } else {
      var all, n := first + second, |second| - 1;
      assert all[..|all| - 1] == first + second[..n];
      more := PushedAppend(first, second[..n]);
      var added := if second[n].Push? then [second[n].e] else [];
      assert PushedIn(first) + more + added == PushedIn(first) + (more + added);
      more := more + added;
    }
  }

  lemma {:induction false} UpToReplyGrows(events: seq<Event>, more: seq<Event>)
    requires !NoReply(events)
    ensures UpToReply(events + more) == UpToReply(events)
  {
    assert (events + more)[0] == events[0];
    if events[0].Stream? {
      assert (events + more)[1..] == events[1..] + more;
      assert !NoReply(events[1..]) by {
        var i :| 0 <= i < |events| && !events[i].Stream?;
        assert events[1..][i - 1] == events[i];
      }
      UpToReplyGrows(events[1..], more);
    }
  }

  lemma UpToReplyEnds(events: seq<Event>)
    requires !NoReply(events)
    ensures 0 < |UpToReply(events)| <= |events| && !NoReply(events[..|UpToReply(events)|])
  {
    var n := FirstReply(events);
    UpToReplyAt(events, n);
    assert events[..n + 1][n] == events[n];
  }

  lemma {:induction false} FirstReply(events: seq<Event>) returns (n: nat)
    requires !NoReply(events)
    ensures n < |events| && events[n].Reply? && NoReply(events[..n])
  {
    var i :| 0 <= i < |events| && !events[i].Stream?;
    if events[0].Reply? {
      n := 0;
    } else {
      assert events[1..][i - 1] == events[i];
      n := FirstReply(events[1..]);
      assert events[..n + 1] == [events[0]] + events[1..][..n];
      n := n + 1;
    }
  }

  /**
   * From opening to the end: a reader that was opened at any moment, early or after the reply, returns
   * once it has had as many turns, among whatever else goes on, as there are events up to the first
   * reply; and it has yielded exactly these.
   */
  lemma OpenedReaderFinishes(before: seq<Action>, after: seq<Action>, r: ReaderId)
    requires Open(r) in before && (exists e :: e in PushedIn(before) && e.Reply?)
    requires TurnsOf(after, r) >= |UpToReply(PushedIn(before))|
    ensures var b := Run(EMPTY, before + after);
      && r in b.readers && b.readers[r].phase == Finished
      && b.readers[r].output == UpToReply(PushedIn(before)) == UpToReply(PushedIn(before + after))
  {
    hide Step, Inv, PushedIn, Run, TurnsOf;
    var events := PushedIn(before);
    RunKeeps(before);
    RunHolds(before);
    RunHolds(before + after);
    RunAppend(EMPTY, before, after);
    assert !NoReply(events) by {
      var e :| e in events && e.Reply?;
      var i :| 0 <= i < |events| && events[i] == e;
    }
    TurnsAdvance(Run(EMPTY, before), after, r);
    UpToReplyEnds(events);
    var more := PushedAppend(before, after);
    UpToReplyGrows(events, more);
    ReadersSeePrefixes(before + after, r);
    var b := Run(EMPTY, before + after);
    if b.readers[r].phase != Finished {
      assert b.events[..|UpToReply(events)|] == events[..|UpToReply(events)|];
      NotPastReply(b, r, |UpToReply(events)|);
    }
  }

  lemma NotPastReply(b: Buffer, r: ReaderId, n: nat)
    requires Inv(b) && b.done && r in b.readers && b.readers[r].phase != Finished
    requires n <= |b.events| && !NoReply(b.events[..n])
    ensures b.readers[r].index < n
  {
    var i :| 0 <= i < n && !b.events[..n][i].Stream?;
    assert b.events[i].Reply? && b.events[..|b.events|] == b.events;
    assert Consistent(b, b.readers[r]);
    ReplyAhead(b.events, b.readers[r].index, i);
  }

  lemma ReplyAhead(events: seq<Event>, index: nat, i: nat)
    requires i < |events| && events[i].Reply?
    ensures !NoReply(events)
    ensures index <= |events| && NoReply(events[..index]) ==> index <= i
  {
    assert i < index <= |events| ==> events[..index][i] == events[i];
  }

  /* ---------- the object ---------- */

  class StreamBuffer {
    var events: seq<Event>
    var waiters: seq<ReaderId>
    var done: bool
    var readers: map<ReaderId, Reader>

    function State(): Buffer
      reads this
    {
      Buffer(events, waiters, done, readers)
    }

    constructor ()
      ensures State() == EMPTY
    {
      events, waiters, done, readers := [], [], false, map[];
    }

    method PushEvent(e: Event)
      requires Inv(State())
      modifies this
      ensures State() == Pushed(old(State()), e) && Inv(State())
    {
      hide Inv;
      PushKeeps(State(), e);
      WaitersKnown(State());
      ghost var before := readers;
      events := events + [e];
      if e.Reply? {
        done := true;
      }
      var waiting := waiters;
      waiters := [];
      for i := 0 to |waiting|
        invariant events == old(events) + [e] && done == (old(done) || e.Reply?) && waiters == []
        invariant readers == Woken(before, waiting[..i])
      {
        var w := waiting[i];
        assert w in waiting;
        WokenNext(before, waiting, i);
        readers := readers[w := readers[w].(phase := Ready)];
      }
      assert waiting[..|waiting|] == waiting;
    }

    method OpenReader(r: ReaderId)
      requires Inv(State())
      modifies this
      ensures State() == Opened(old(State()), r) && Inv(State())
      ensures r in readers && (r !in old(readers) ==> readers[r].index == 0 && readers[r].output == [])
    {
      if r !in readers {
        readers := readers[r := Reader(Ready, 0, [])];
      }
    }

    /** One turn of `readCommandStream` for reader `r`; `yielded` is the event handed out, if any. */
    method AdvanceReader(r: ReaderId) returns (yielded: seq<Event>)
      requires Inv(State()) && r in readers
      modifies this
      ensures State() == Advanced(old(State()), r) && Inv(State())
      ensures readers[r].output == old(readers[r].output) + yielded
    {
      AdvanceKeeps(State(), r);
      yielded := [];
      var s := readers[r];
      if s.phase == Ready {
        if s.index < |events| {
          var event := events[s.index];
          yielded := [event];
          readers := readers[r := Reader(if event.Reply? then Finished else Ready, s.index + 1, s.output + [event])];
        } else if done {
          readers := readers[r := s.(phase := RanDry)];
        } else {
          waiters := waiters + [r];
          readers := readers[r := s.(phase := Parked)];
        }
      }
    }
  }
}
