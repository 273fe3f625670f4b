/**
 * The per-target pool: which session a request goes to, when a new one is opened, and what the
 * idle sweep may take away.
 */
module BastionDispatch {
  import opened Wrappers
  import M = BastionMux
  import opened BastionShell

  /** The sessions that are still alive, in order. */
  function Live(sessions: seq<BastionSession>): (r: seq<BastionSession>)
    reads sessions
    ensures forall s :: s in r ==> s in sessions && !s.dead
    ensures forall s :: s in sessions && !s.dead ==> s in r
    ensures |r| <= |sessions|
  {
    if sessions == [] then []
    else Live(sessions[..|sessions| - 1])
         + if sessions[|sessions| - 1].dead then [] else [sessions[|sessions| - 1]]
  }

  lemma LiveNext(sessions: seq<BastionSession>, i: nat)
    requires i < |sessions|
    ensures Live(sessions[..i + 1]) ==
      if sessions[i].dead then Live(sessions[..i]) else Live(sessions[..i]) + [sessions[i]]
  {
    assert sessions[..i + 1][..i] == sessions[..i];
  }

  lemma NoneLive()
    ensures Live([]) == []
  {
  }

  predicate Distinct(sessions: seq<BastionSession>) {
    forall i, j :: 0 <= i < j < |sessions| ==> sessions[i] != sessions[j]
  }

  lemma {:induction false} LiveDistinct(sessions: seq<BastionSession>)
    requires Distinct(sessions)
    ensures Distinct(Live(sessions))
  {
    if sessions != [] {
      LiveDistinct(sessions[..|sessions| - 1]);
    }
  }

  /** Requests the live sessions have accepted and not completed. */
  ghost function Outstanding(sessions: seq<BastionSession>): int
    reads sessions
  {
    if sessions == [] then 0
    else Outstanding(sessions[..|sessions| - 1])
         + |sessions[|sessions| - 1].State().accepted| - |sessions[|sessions| - 1].State().done|
  }

  ghost function TotalLoad(sessions: seq<BastionSession>): nat
    reads sessions
  {
    if sessions == [] then 0
    else TotalLoad(sessions[..|sessions| - 1]) + sessions[|sessions| - 1].Load()
  }

  /** The load the pool sees is exactly the work it has accepted and not finished. */
  lemma {:induction false} LoadIsOutstanding(sessions: seq<BastionSession>)
    requires forall s :: s in sessions ==> M.Sound(s.env, s.State())
    ensures TotalLoad(sessions) == Outstanding(sessions)
  {
    if sessions != [] {
      var last := sessions[|sessions| - 1];
      LoadIsOutstanding(sessions[..|sessions| - 1]);
      SessionLoadIsOutstanding(last.env, last.State());
    }
  }

  class BastionPool {
    const poolSize: nat
    const ttl: nat
    var sessions: seq<BastionSession>
    var lastUsed: int

    ghost predicate Valid()
      reads this`sessions, sessions
    {
      && poolSize >= 1
      && |sessions| <= poolSize
      && Distinct(sessions)
      && forall s :: s in sessions ==> M.AtRest(s.env, s.State())
    }

    /** Every live session is busy and there is room for one more. */
    predicate MustOpen(): (r: bool)
      reads this`sessions, sessions
      ensures r <==> (forall s :: s in sessions && !s.dead ==> s.current.Some? || s.queue != [])
                     && |Live(sessions)| < poolSize
    {
      (forall s :: s in Live(sessions) ==> s.Load() >= 1) && |Live(sessions)| < poolSize
    }

    constructor (requestedSize: nat, ttl: nat, now: int)
      ensures Valid() && sessions == [] && poolSize >= 1 && (requestedSize >= 1 ==> poolSize == requestedSize)
      ensures this.ttl == ttl && lastUsed == now
    {
      poolSize := if requestedSize < 1 then 1 else requestedSize;
      this.ttl := ttl;
      sessions := [];
      lastUsed := now;
    }

    /** The filter at the head of `enqueue`: dead sessions are dropped. */
    method DropDead()
      requires Valid()
      modifies this`sessions
      ensures Valid() && sessions == Live(old(sessions))
    {
      hide Live, Distinct, M.AtRest, BastionSession.State;
      var kept: seq<BastionSession> := [];
      NoneLive();
      for i := 0 to |sessions|
        invariant sessions == old(sessions) && kept == Live(sessions[..i])
      {
        LiveNext(sessions, i);
        if !sessions[i].dead {
          kept := kept + [sessions[i]];
        }
      }
      assert sessions[..|sessions|] == sessions;
      LiveDistinct(sessions);
      sessions := kept;
    }

    method PickLeast() returns (best: BastionSession?)
      requires Valid()
      ensures best == null <==> sessions == []
      ensures best != null ==> best in sessions && forall s :: s in sessions ==> best.Load() <= s.Load()
    {
      best := null;
      for i := 0 to |sessions|
        invariant best == null <==> i == 0
        invariant best != null ==> best in sessions
        invariant best != null ==> forall k :: 0 <= k < i ==> best.Load() <= sessions[k].Load()
      {
        if best == null || sessions[i].Load() < best.Load() {
          best := sessions[i];
        }
      }
    }

    /** The session `enqueue` settles on, opened if need be; no existing session is touched. */
    method Choose(now: int, env: M.Env) returns (target: BastionSession)
      requires Valid()
      modifies this
      ensures Valid() && target in sessions && !target.dead && lastUsed == now
      ensures old(MustOpen()) ==> fresh(target) && sessions == old(Live(sessions)) + [target]
                                  && target.env == env && target.State() == M.FRESH
      ensures !old(MustOpen()) ==> sessions == old(Live(sessions)) && target in old(Live(sessions))
                                   && (forall s :: s in old(Live(sessions)) ==> target.Load() <= s.Load())
      ensures !old(MustOpen()) && target.Load() >= 1 ==>
                |sessions| == poolSize && forall s :: s in sessions ==> s.Load() >= 1
    {
      hide M.AtRest, M.FRESH, Distinct, Live, BastionSession.Load, BastionSession.State;
      ghost var mustOpen := MustOpen();
      lastUsed := now;
      DropDead();
      assert mustOpen == ((forall s :: s in sessions ==> s.Load() >= 1) && |sessions| < poolSize);
      var existing := PickLeast();
      var allBusy := existing != null && existing.Load() >= 1;
      assert (existing == null || allBusy) == forall s :: s in sessions ==> s.Load() >= 1;
      if (existing == null || allBusy) && |sessions| < poolSize {
        target := Open(env);
      } else {
        target := existing;
      }
    }

    method Open(env: M.Env) returns (target: BastionSession)
      requires Valid() && |sessions| < poolSize
      modifies this`sessions
      ensures Valid() && fresh(target) && sessions == old(sessions) + [target]
      ensures target.env == env && target.State() == M.FRESH && !target.dead
    {
      ghost var before := sessions;
      target := new BastionSession(env);
      sessions := sessions + [target];
      M.FreshAtRest(env);
      hide M.AtRest, M.FRESH;
      assert forall s :: s in before ==> s != target && M.AtRest(s.env, s.State());
    }

    /**
     * `enqueue`: at `now`, with `env` as the outcomes of a session that may have to be opened.
     * A request waits behind earlier work only when the pool is full and every session is busy.
     */
    method Enqueue(req: M.Request, now: int, env: M.Env) returns (target: BastionSession)
      requires Valid()
      modifies this, sessions
      ensures Valid() && lastUsed == now && target in sessions
      ensures old(MustOpen()) ==> fresh(target) && sessions == old(Live(sessions)) + [target]
                                  && target.env == env && target.State() == M.Accept(env, M.FRESH, req)
      ensures !old(MustOpen()) ==> sessions == old(Live(sessions)) && target in old(Live(sessions))
                                   && target.State() == M.Accept(target.env, old(target.State()), req)
                                   && (forall s :: s in old(Live(sessions)) ==> old(target.Load()) <= old(s.Load()))
      ensures !old(MustOpen()) && old(target.Load()) >= 1 ==>
                |sessions| == poolSize && forall s :: s in sessions ==> old(s.Load()) >= 1
      ensures forall s :: s in old(sessions) && s != target ==> s.State() == old(s.State())
    {
      hide M.Accept, M.AtRest, M.Sound, M.FRESH, Live, MustOpen, Valid, BastionSession.State, BastionSession.Load;
      target := Choose(now, env);
      label chosen:
      Give(target, req);
      forall s | s in old(sessions) && s != target ensures s.State() == old(s.State()) {
        assert old@chosen(s.State()) == old(s.State());
      }
    }

    method Give(target: BastionSession, req: M.Request)
      requires Valid() && target in sessions && !target.dead
      modifies target
      ensures Valid() && target.State() == M.Accept(target.env, old(target.State()), req)
      ensures forall s: BastionSession :: s != target && old(allocated(s)) ==> s.State() == old(s.State())
    {
      AcceptRests(target.env, target.State(), req);
      hide M.Accept, M.AtRest, M.Sound, Distinct;
      target.Enqueue(req);
    }

    predicate IsIdle(now: int)
      reads this, sessions
    {
      now - lastUsed > ttl && forall s :: s in sessions ==> s.Load() == 0
    }

    method Kill()
      requires Valid()
      modifies this, sessions
      ensures Valid() && sessions == []
      ensures forall s :: s in old(sessions) ==> s.State() == M.Close(s.env, old(s.State()))
    {
      ghost var all := sessions;
      hide M.Close, M.Sound;
      for i := 0 to |sessions|
        invariant sessions == all
        invariant forall k :: 0 <= k < i ==> all[k].State() == M.Close(all[k].env, old(all[k].State()))
        invariant forall k :: i <= k < |all| ==> all[k].State() == old(all[k].State())
      {
        label here:
        var s := sessions[i];
        assert M.AtRest(s.env, old(s.State()));
        s.Kill();
        forall k | 0 <= k < |all| && k != i ensures all[k].State() == old@here(all[k].State()) {
          assert all[k] != s;
        }
      }
      sessions := [];
    }

    /** One sweep over this pool: an idle pool is killed, and nothing outstanding is failed by it. */
    method Sweep(now: int) returns (evicted: bool)
      requires Valid()
      modifies this, sessions
      ensures Valid() && evicted == old(IsIdle(now))
      ensures evicted <==> now - old(lastUsed) > ttl
                           && forall s :: s in old(sessions) ==> old(s.queue) == [] && old(s.current) == None
      ensures !evicted ==> sessions == old(sessions) && forall s :: s in sessions ==> s.State() == old(s.State())
      ensures evicted ==> sessions == []
      ensures forall s :: s in old(sessions) ==> s.done == old(s.done) && s.refused == old(s.refused)
    {
      evicted := IsIdle(now);
      if evicted {
        forall s | s in sessions ensures M.Close(s.env, s.State()).done == s.done
                                      && M.Close(s.env, s.State()).refused == s.refused {
          IdleCloseFailsNothing(s.env, s.State());
        }
        Kill();
      }
    }
  }

  lemma AcceptRests(env: M.Env, st: M.Session, req: M.Request)
    requires M.AtRest(env, st) && !st.dead
    ensures M.AtRest(env, M.Accept(env, st, req)) && M.Sound(env, st)
  {
  }

  lemma IdleCloseFailsNothing(env: M.Env, st: M.Session)
    requires M.Sound(env, st) && st.queue == [] && st.current == None
    ensures M.Close(env, st).done == st.done && M.Close(env, st).refused == st.refused
  {
    assert st.done + [] == st.done;
  }
}
