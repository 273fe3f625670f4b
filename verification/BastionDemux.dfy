/**
 * Demultiplexing: from one character stream, cut anywhere, each request gets its own output
 * lines and its own exit code.
 */
module BastionDemux {
  import opened Wrappers
  import opened Text
  import opened BastionUpload
  import opened Base64
  import opened BastionMux

  /* ---------- the cut of the stream does not matter ---------- */

  function OnChunks(env: Env, l: Link, chunks: seq<string>): (r: Link)
    requires Sound(env, l.session)
    ensures Sound(env, r.session)
    decreases |chunks|
  {
    if chunks == [] then l else OnChunks(env, OnData(env, l, chunks[0]), chunks[1..])
  }

  lemma StripReturnsAppend(a: seq<string>, b: seq<string>)
    ensures StripReturns(a + b) == StripReturns(a) + StripReturns(b)
  {
  }

  lemma DataTwice(env: Env, l: Link, a: string, b: string)
    requires Sound(env, l.session)
    ensures OnData(env, OnData(env, l, a), b) == OnData(env, l, a + b)
  {
    var first := Split(l.buffer + a);
    var second := Split(Last(first) + b);
    CutTwice(l.buffer, a, b);
    hide OnLines, Split, StripReturns, ExtendsOnline, Settled, Init, Last;
    StripReturnsAppend(Init(first), Init(second));
    OnLinesAppend(env, l.session, StripReturns(Init(first)), StripReturns(Init(second)));
  }

  lemma CutTwice(buffer: string, a: string, b: string)
    ensures var first := Split(buffer + a);
      var second := Split(Last(first) + b);
      var whole := Split(buffer + (a + b));
      Init(whole) == Init(first) + Init(second) && Last(whole) == Last(second)
  {
    hide Split;
    assert buffer + (a + b) == (buffer + a) + b;
    SplitAppend(buffer + a, b);
  }

  /** However the stream is cut into chunks, the session ends in the same state. */
  lemma {:induction false} ChunkInvariance(env: Env, l: Link, chunks: seq<string>)
    requires Sound(env, l.session) && Plain(l.buffer)
    ensures OnChunks(env, l, chunks) == OnData(env, l, Concat(chunks))
    decreases |chunks|
  {
    hide OnLines, Split, Plain, ExtendsOnline, Settled;
    if chunks == [] {
      assert l.buffer + "" == l.buffer;
      SplitPlain(l.buffer);
      assert OnLines(env, l.session, StripReturns([])) == l.session by { NoLines(env, l.session); }
    } else {
      var l' := OnData(env, l, chunks[0]);
      SplitParts(l.buffer + chunks[0]);
      ChunkInvariance(env, l', chunks[1..]);
      DataTwice(env, l, chunks[0], Concat(chunks[1..]));
    }
  }

  /* ---------- what a faithful shell prints for one command ---------- */

  /**
   * One command's share of the stream: lines before its START marker, the newline-terminated
   * lines of its output, whatever it printed after the last newline, and its exit status.
   */
  datatype Frame = Frame(noise: seq<string>, body: seq<string>, tail: string, rc: int)

  function EndLine(id: string, tail: string, rc: int): string {
    tail + EndPrefix(id) + Numeral(rc)
  }

  function FrameLines(id: string, f: Frame): seq<string> {
    f.noise + [StartMarker(id)] + f.body + [EndLine(id, f.tail, f.rc)]
  }

  /** A line the session passes over while it waits for the START marker of `id`. */
  predicate IsNoise(id: string, line: string) {
    IsEcho(line, id) || (Trim(line) != StartMarker(id) && !Contains(line, EndPrefix(id)))
  }

  /** A line of output: free of the command's own markers. */
  predicate IsOutput(id: string, line: string) {
    !IsEcho(line, id) && Trim(line) != StartMarker(id) && !Contains(line, EndPrefix(id))
  }

  predicate CleanFrame(id: string, f: Frame) {
    && (forall i :: 0 <= i < |f.noise| ==> IsNoise(id, f.noise[i]))
    && (forall i :: 0 <= i < |f.body| ==> IsOutput(id, f.body[i]))
    && !Contains(f.tail, EndPrefix(id))
  }

  lemma EndPrefixShape(id: string)
    requires '=' !in id
    ensures var p := EndPrefix(id); |p| > 0 && Last(p) == '=' && forall k :: 0 <= k < |p| - 1 ==> p[k] != '='
  {
    var p := EndPrefix(id);
    assert Init(p) == "__AURA_CMD_END_" + id + "__";
    assert '=' !in Init(p);
    assert forall k :: 0 <= k < |p| - 1 ==> p[k] == Init(p)[k];
  }

  lemma OccursInFront(front: string, back: string, p: string, i: int)
    requires OccursAt(front + back, p, i) && i + |p| <= |front|
    ensures Contains(front, p)
  {
    assert front[i..i + |p|] == (front + back)[i..i + |p|];
    assert OccursAt(front, p, i);
  }

  /** The END prefix ends in its only `=`, so it cannot begin inside the text in front of it. */
  lemma OnlyAfterTail(tail: string, p: string, s: string, i: int)
    requires |p| > 0 && Last(p) == '=' && forall k :: 0 <= k < |p| - 1 ==> p[k] != '='
    requires '=' !in s && !Contains(tail, p)
    requires OccursAt(tail + p + s, p, i)
    ensures i == |tail|
  {
    var line := tail + p + s;
    assert line[i + |p| - 1] == line[i..i + |p|][|p| - 1] == '=';
    if i + |p| <= |tail| {
      assert line == tail + (p + s);
      OccursInFront(tail, p + s, p, i);
    }
  }

  lemma {:induction false} ExitCodeAt(line: string, p: string, at: nat, i: nat)
    requires i <= at <= |line|
    requires OccursAt(line, p, at) && ParseInteger(line[at + |p|..]).Some?
    requires forall k :: i <= k < at ==> !OccursAt(line, p, k)
    ensures ExitCodeFrom(line, p, i) == ParseInteger(line[at + |p|..])
    decreases at - i
  {
    if i < at {
      ExitCodeAt(line, p, at, i + 1);
    }
  }

  lemma NumeralChars(n: int)
    ensures '=' !in Numeral(n) && |Numeral(n)| > 0 && Numeral(n)[0] != '$'
  {
    if n < 0 {
      assert '=' !in Decimal(-n);
    } else {
      assert Decimal(n)[0] in Decimal(n);
    }
  }

  /** The END line ends the command and carries its status, whatever text it was glued to. */
  lemma EndLineRecognised(id: string, tail: string, rc: int)
    requires '=' !in id && !Contains(tail, EndPrefix(id))
    ensures var line := EndLine(id, tail, rc);
      && !IsEcho(line, id) && Trim(line) != StartMarker(id) && Contains(line, EndPrefix(id))
      && ExitCodeFrom(line, EndPrefix(id), 0) == Some(rc)
  {
    var p, s := EndPrefix(id), Numeral(rc);
    var line := tail + p + s;
    EndPrefixShape(id);
    NumeralChars(rc);
    NumeralRoundTrip(rc);
    assert line[|tail|..|tail| + |p|] == p && line[|tail| + |p|..] == s;
    assert OccursAt(line, p, |tail|);
    forall k | 0 <= k < |tail| ensures !OccursAt(line, p, k) {
      if OccursAt(line, p, k) {
        OnlyAfterTail(tail, p, s, k);
      }
    }
    ExitCodeAt(line, p, |tail|, 0);
    NotAnEcho(id, tail, s);
  }

  lemma NotAnEcho(id: string, tail: string, s: string)
    requires '=' !in id && !Contains(tail, EndPrefix(id))
    requires '=' !in s && |s| > 0 && s[0] != '$'
    ensures var line := tail + EndPrefix(id) + s; !IsEcho(line, id) && Trim(line) != StartMarker(id)
  {
    NotMarker(id, tail, s);
  }

  /** A line that carries the END prefix, not followed by `$?`, is neither an echo nor the START marker. */
  lemma NotMarker(id: string, tail: string, s: string)
    requires '=' !in id && !Contains(tail, EndPrefix(id))
    requires '=' !in s && |s| > 0 && (s[0] == '$' ==> |s| > 1 && s[1] != '?')
    ensures var line := tail + EndPrefix(id) + s; !IsEcho(line, id) && Trim(line) != StartMarker(id)
  {
    var p := EndPrefix(id);
    var line := tail + p + s;
    EndPrefixShape(id);
    assert line[|tail| + |p| - 1] == '=';
    assert '=' in Trim(line);
    assert '=' !in StartMarker(id);
    assert '=' !in EchoStart(id);
    NoEchoedStatus(tail, p, s);
  }

  lemma NoEchoedStatus(tail: string, p: string, s: string)
    requires |p| > 0 && p[|p| - 1] == '=' && '=' !in p[..|p| - 1] && !Contains(tail, p)
    requires '=' !in s && |s| > 0 && (s[0] == '$' ==> |s| > 1 && s[1] != '?')
    ensures !Contains(tail + p + s, p + "$?")
  {
    var line := tail + p + s;
    forall i | 0 <= i <= |line| ensures !OccursAt(line, p + "$?", i) {
      if OccursAt(line, p + "$?", i) {
        var q := line[i..i + |p| + 2];
        assert line[i + |p|] == q[|p|] == '$' && line[i + |p| + 1] == q[|p| + 1] == '?';
        assert line[i..i + |p|] == line[i..i + |p| + 2][..|p|] == p;
        OnlyAfterTail(tail, p, s, i);
      }
    }
  }

  /* ---------- one command ---------- */

  /** A streaming callback that only submits more work leaves the command in flight. */
  lemma {:induction false} StreamCallbackQueues(env: Env, st: Session, acts: seq<Action>)
    requires Sound(env, st) && !st.dead && st.current.Some? && Drop !in acts
    ensures var r := RunActions(env, st, acts); r == st.(queue := r.queue, accepted := r.accepted)
    decreases |acts|
  {
    hide RunActions, Accept, Sound, Ledger, Settled, Extends, Unanswered;
    if acts == [] {
      NoActions(env, st);
    } else {
      assert acts[0] in acts;
      QueueBehind(env, st, acts[0].req);
      FirstSubmit(env, st, acts);
      StreamCallbackQueues(env, Accept(env, st, acts[0].req), acts[1..]);
    }
  }

  lemma NoActions(env: Env, st: Session)
    requires Sound(env, st) && !st.dead
    ensures RunActions(env, st, []) == st
  {
  }

  lemma QueueBehind(env: Env, st: Session, req: Request)
    requires Sound(env, st) && !st.dead && st.current.Some?
    ensures Accept(env, st, req) == st.(queue := st.queue + [req], accepted := st.accepted + [req])
  {
  }

  lemma FirstSubmit(env: Env, st: Session, acts: seq<Action>)
    requires Sound(env, st) && !st.dead && acts != [] && acts[0].Submit?
    ensures RunActions(env, st, acts) == RunActions(env, Accept(env, st, acts[0].req), acts[1..])
  {
    hide Accept;
  }

  lemma {:induction false} NoisePasses(env: Env, st: Session, lines: seq<string>)
    requires Sound(env, st) && st.warmed && st.current.Some? && !st.inside
    requires forall i :: 0 <= i < |lines| ==> IsNoise(st.id, lines[i])
    ensures OnLines(env, st, lines) == st
    decreases |lines|
  {
    if lines != [] {
      assert OnLine(env, st, lines[0]) == st;
      NoisePasses(env, st, lines[1..]);
    }
  }

  /** The request's streaming callbacks for its first `n` lines do not drop the session. */
  predicate StreamsQuietly(req: Request, n: nat) {
    forall k :: 0 <= k < n ==> Drop !in StreamActions(req, k)
  }

  lemma {:induction false} BodyHeard(env: Env, st: Session, body: seq<string>)
    requires Sound(env, st) && st.warmed && !st.dead && st.current.Some? && st.inside
    requires forall i :: 0 <= i < |body| ==> IsOutput(st.id, body[i])
    requires StreamsQuietly(st.current.value, |st.heard| + |body|)
    ensures var r := OnLines(env, st, body);
      r == st.(heard := st.heard + body, queue := r.queue, accepted := r.accepted)
    decreases |body|
  {
    hide OnLine, IsOutput, StreamActions, Ledger, Sound;
    if body == [] {
      assert st.heard + body == st.heard;
    } else {
      var s := OutputHeard(env, st, body[0]);
      BodyHeard(env, s, body[1..]);
      assert st.heard + [body[0]] + body[1..] == st.heard + body;
    }
  }

  lemma OutputHeard(env: Env, st: Session, line: string) returns (s: Session)
    requires Sound(env, st) && st.warmed && !st.dead && st.current.Some? && st.inside
    requires IsOutput(st.id, line)
    requires Drop !in StreamActions(st.current.value, |st.heard|)
    ensures s == OnLine(env, st, line)
    ensures s == st.(heard := st.heard + [line], queue := s.queue, accepted := s.accepted)
  {
    var t := st.(heard := st.heard + [line]);
    StreamCallbackQueues(env, t, StreamActions(st.current.value, |st.heard|));
    s := OnLine(env, st, line);
  }

  /** What the request behind a frame is told. */
  function Answer(req: Request, f: Frame): Completion {
    Completion(req, f.body, f.rc == 0, Some(f.rc))
  }

  /** The session just before the END line: everything the command printed has been handed over. */
  lemma FrameHeard(env: Env, st: Session, f: Frame) returns (s: Session)
    requires Sound(env, st) && st.warmed && !st.dead && st.current.Some? && Unanswered(st)
    requires CleanFrame(st.id, f) && '=' !in st.id
    requires StreamsQuietly(st.current.value, |f.body|)
    ensures Sound(env, s) && s == st.(inside := true, heard := f.body, queue := s.queue, accepted := s.accepted)
    ensures OnLines(env, st, FrameLines(st.id, f)) == OnLine(env, s, EndLine(st.id, f.tail, f.rc))
  {
    hide IsNoise, IsOutput, Settled, Extends, ExtendsOnline, Ledger, EndLine, Finish, RunActions, Contains;
    var id := st.id;
    var mark, end := [StartMarker(id)], [EndLine(id, f.tail, f.rc)];
    OnLinesAppend(env, st, f.noise + mark + f.body, end);
    OnLinesAppend(env, st, f.noise + mark, f.body);
    OnLinesAppend(env, st, f.noise, mark);
    NoisePasses(env, st, f.noise);
    StartRecognised(id);
    var listening := st.(inside := true);
    assert OnLines(env, st, mark) == OnLine(env, st, mark[0]) == listening;
    BodyHeard(env, listening, f.body);
    s := OnLines(env, listening, f.body);
    assert st.heard + f.body == f.body;
    assert OnLines(env, s, end) == OnLine(env, s, end[0]);
  }

  lemma StartRecognised(id: string)
    requires '=' !in id
    ensures Trim(StartMarker(id)) == StartMarker(id) && !IsEcho(StartMarker(id), id)
  {
    var m, p := StartMarker(id), EndPrefix(id) + "$?";
    assert m[0] == '_' && Last(m) == '_';
    assert EchoStart(id)[0] == 'e';
    assert |p| > |m|;
  }

  /** One clean frame completes the command in flight with exactly its output and status. */
  lemma FrameCompletes(env: Env, st: Session, f: Frame)
    requires Sound(env, st) && st.warmed && !st.dead && st.current.Some? && Unanswered(st)
    requires CleanFrame(st.id, f) && '=' !in st.id
    requires StreamsQuietly(st.current.value, |f.body|)
    ensures var r := OnLines(env, st, FrameLines(st.id, f));
      && st.done + [Answer(st.current.value, f)] <= r.done
      && (WritesSucceed(env) && !r.dead ==> r.done == st.done + [Answer(st.current.value, f)])
      && Unanswered(r) && r.warmed
  {
    hide IsNoise, IsOutput, StreamsQuietly, FrameLines, OnLines, Settled, Extends, Total, StartMarker, EndPrefix;
    var s := FrameHeard(env, st, f);
    EndLineRecognised(st.id, f.tail, f.rc);
    assert OnLine(env, s, EndLine(st.id, f.tail, f.rc)) == Finish(env, s, Some(f.rc), f.rc == 0);
  }

  /* ---------- when a line is not what it seems ---------- */

  /** Before the START marker, the lines that leave the session alone are exactly the noise lines. */
  lemma NoiseExactly(env: Env, st: Session, line: string)
    requires Sound(env, st) && st.warmed && !st.dead && st.current.Some? && !st.inside
    ensures OnLine(env, st, line) == st <==> IsNoise(st.id, line)
  {
  }

  /** Whenever a command is in flight, an echo of its first line, or of a command that ends in `$?`, is dropped. */
  lemma EchoDropped(env: Env, st: Session, line: string)
    requires Sound(env, st) && st.warmed && st.current.Some?
    requires Trim(line) == "echo " + StartMarker(st.id) || Contains(line, EndPrefix(st.id) + "$?")
    ensures OnLine(env, st, line) == st
  {
  }

  /**
   * Any other line is the START marker when it is that once trimmed; else it ends the command when it
   * holds the END prefix; else it is output, or nothing if START has not come.
   */
  lemma LineIsRead(env: Env, st: Session, line: string)
    requires Sound(env, st) && st.warmed && st.current.Some? && !st.dead
    requires Trim(line) != "echo " + StartMarker(st.id) && !Contains(line, EndPrefix(st.id) + "$?")
    ensures var r := OnLine(env, st, line);
      if Trim(line) == StartMarker(st.id) then r == st.(inside := true)
      else if Contains(line, EndPrefix(st.id)) then |r.done| > |st.done| && r.done[|st.done|].heard == st.heard
      else if !st.inside then r == st
      else r.dead || r.heard == st.heard + [line]
  {
    hide Finish, RunActions, Contains, Trim, StreamActions;
    var s := st.(heard := st.heard + [line]);
    var acts := StreamActions(st.current.value, |st.heard|);
    assert Sound(env, s);
    if Drop in acts {
      DropKills(env, s, acts);
    } else {
      StreamCallbackQueues(env, s, acts);
    }
  }

  /**
   * The echo filter looks for `$?` behind the END prefix, but the command that is written ends
   * in `$__AURA_RC`: if the terminal does echo it, the request fails with -1 before it has run.
   */
  lemma EchoedCommandFails(env: Env, st: Session, front: string)
    requires Sound(env, st) && st.warmed && !st.dead && st.current.Some?
    requires '=' !in st.id && !Contains(front, EndPrefix(st.id))
    ensures OnLine(env, st, front + EndPrefix(st.id) + "$__AURA_RC") == Finish(env, st, Some(-1), false)
  {
    hide Finish, RunActions, Pump, Ledger, StartMarker, StreamActions;
    var p, s := EndPrefix(st.id), "$__AURA_RC";
    var line := front + p + s;
    EndPrefixShape(st.id);
    assert s[0] == '$' && s[1] == '_' && s[..2] != "$?";
    assert line[|front|..|front| + |p|] == p && line[|front| + |p|..] == s;
    assert OccursAt(line, p, |front|);
    assert Contains(line, p);
    forall k | 0 <= k <= |line| && OccursAt(line, p, k) ensures k == |front| {
      OnlyAfterTail(front, p, s, k);
    }
    NoExitCode(line, p, |front|, 0);
    NotMarker(st.id, front, s);
  }

  /** Every `=` of the text stands right behind `c`. */
  predicate OnlyAfter(s: string, c: char) {
    forall i :: 0 <= i < |s| && s[i] == '=' ==> i > 0 && s[i - 1] == c
  }

  lemma {:induction false} OnlyAfterConcat(parts: seq<string>, c: char)
    requires forall i :: 0 <= i < |parts| ==> OnlyAfter(parts[i], c)
    ensures OnlyAfter(Concat(parts), c)
  {
    if parts != [] {
      OnlyAfterConcat(parts[1..], c);
      var rest := Concat(parts[1..]);
      assert OnlyAfter(parts[0], c);
      forall i | 0 <= i < |parts[0] + rest| && (parts[0] + rest)[i] == '='
        ensures i > 0 && (parts[0] + rest)[i - 1] == c
      {
        if i >= |parts[0]| {
          assert rest[i - |parts[0]|] == '=';
        }
      }
    }
  }

  /** What the run line says in front of the END prefix. */
  function RunFront(id: string): seq<string> {
    ["base64 -d < ", RemoteB64(id), " > ", RemoteFile(id), " && rm -f ", RemoteB64(id),
     " && bash ", RemoteFile(id), "; __AURA_RC=$?; rm -f ", RemoteFile(id), "; echo "]
  }

  lemma {:induction false} ConcatConcat(a: seq<string>, b: seq<string>)
    ensures Concat(a + b) == Concat(a) + Concat(b)
  {
    if a == [] {
      assert a + b == b;
    } else {
      assert (a + b)[1..] == a[1..] + b;
      ConcatConcat(a[1..], b);
    }
  }

  lemma RunLineParts(id: string)
    ensures RunLine(id) == Concat(RunFront(id)) + EndPrefix(id) + "$__AURA_RC"
  {
    var tail := [EndPrefix(id), "$__AURA_RC"];
    ConcatConcat(RunFront(id), tail);
    ConcatTwo(EndPrefix(id), "$__AURA_RC");
    hide Concat, RemoteB64, RemoteFile, EndPrefix;
    assert RunFront(id) + tail == ["base64 -d < ", RemoteB64(id), " > ", RemoteFile(id), " && rm -f ", RemoteB64(id),
            " && bash ", RemoteFile(id), "; __AURA_RC=$?; rm -f ", RemoteFile(id),
            "; echo ", EndPrefix(id), "$__AURA_RC"];
  }

  lemma CharAt(s: string, p: string, i: int, k: nat)
    requires OccursAt(s, p, i) && k < |p|
    ensures i + k < |s| && s[i + k] == p[k]
  {
    assert s[i..i + |p|][k] == p[k];
  }

  lemma RunFrontFree(id: string)
    requires '=' !in id
    ensures !Contains(Concat(RunFront(id)), EndPrefix(id))
  {
    var front, p := Concat(RunFront(id)), EndPrefix(id);
    RunFrontPieces(id);
    OnlyAfterConcat(RunFront(id), 'C');
    EndPrefixShape(id);
    assert p[|p| - 2] == '_';
    forall i | 0 <= i <= |front| ensures !OccursAt(front, p, i) {
      if OccursAt(front, p, i) {
        CharAt(front, p, i, |p| - 2);
        CharAt(front, p, i, |p| - 1);
      }
    }
  }

  lemma RunFrontPieces(id: string)
    requires '=' !in id
    ensures forall i :: 0 <= i < |RunFront(id)| ==> OnlyAfter(RunFront(id)[i], 'C')
  {
    assert '=' !in RemoteB64(id) && '=' !in RemoteFile(id);
    NoEquals(RemoteB64(id));
    NoEquals(RemoteFile(id));
    hide RemoteB64, RemoteFile;
  }

  lemma NoEquals(s: string)
    requires '=' !in s
    ensures OnlyAfter(s, 'C')
  {
  }

  /** The line that is really written is such a line: echoed, it ends its own request with -1. */
  lemma EchoedRunLineFails(env: Env, st: Session)
    requires Sound(env, st) && st.warmed && !st.dead && st.current.Some? && '=' !in st.id
    ensures RunLine(st.id) in CommandLines(st.id, st.current.value.script)
    ensures OnLine(env, st, RunLine(st.id)) == Finish(env, st, Some(-1), false)
  {
    RunLineParts(st.id);
    RunFrontFree(st.id);
    RunLineWritten(st.id, st.current.value.script);
    hide OnLine, Finish, RunLine, CommandLines, Concat, Contains;
    EchoedCommandFails(env, st, Concat(RunFront(st.id)));
  }

  lemma RunLineWritten(id: string, script: seq<Byte>)
    ensures RunLine(id) in CommandLines(id, script)
  {
    hide RunLine, EchoStart, HeredocOpener, HeredocLines;
    var lines := CommandLines(id, script);
    assert lines[|lines| - 2] == RunLine(id);
  }

  lemma {:induction false} NoExitCode(line: string, p: string, at: nat, i: nat)
    requires i <= |line| && at + |p| <= |line|
    requires ParseInteger(line[at + |p|..]) == None
    requires forall k :: 0 <= k <= |line| && OccursAt(line, p, k) ==> k == at
    ensures ExitCodeFrom(line, p, i) == None
    decreases |line| - i
  {
    if i < |line| {
      NoExitCode(line, p, at, i + 1);
    }
  }

  /* ---------- the first command of a new shell ---------- */

  /** Login banners are passed over, the ready marker starts the first queued request. */
  lemma {:induction false} WarmsUp(env: Env, st: Session, banner: seq<string>)
    requires Sound(env, st) && !st.warmed && !st.dead && st.current == None && st.queue != []
    requires forall i :: 0 <= i < |banner| ==> Trim(banner[i]) != READY_MARKER
    requires WritesSucceed(env)
    ensures var r := OnLines(env, st, banner + [READY_MARKER]);
      && r.warmed && r.current == Some(st.queue[0]) && r.queue == st.queue[1..] && Unanswered(r)
      && r.sent == st.sent + [Post(r.id, st.queue[0].script)]
    decreases |banner|
  {
    hide Finish, Command, Trim;
    if banner == [] {
      assert [] + [READY_MARKER] == [READY_MARKER];
      assert OnLines(env, st, [READY_MARKER]) == OnLine(env, st, READY_MARKER);
    } else {
      assert (banner + [READY_MARKER])[1..] == banner[1..] + [READY_MARKER];
      WarmsUp(env, st, banner[1..]);
    }
  }

  /* ---------- a callback that drops the session ---------- */

  /** No session survives a callback that drops it. */
  lemma {:induction false} DropKills(env: Env, st: Session, acts: seq<Action>)
    requires Sound(env, st) && Drop in acts
    ensures RunActions(env, st, acts).dead
    decreases |acts|
  {
    hide Accept, Close, Sound, Settled, Unanswered;
    if !st.dead && acts[0] != Drop {
      FirstSubmit(env, st, acts);
      DropKills(env, Accept(env, st, acts[0].req), acts[1..]);
    }
  }

  /* ---------- what the shell prints over a whole run ---------- */

  /**
   * What comes before the first answer of a shell that is not warm yet (its last line is the ready
   * marker), the number of the first command answered, and the answers, one for each command.
   */
  datatype Shell = Shell(warmup: seq<string>, first: nat, frames: seq<Frame>)

  predicate ValidShell(env: Env, sh: Shell) {
    && (forall i :: 0 <= i < |sh.warmup| ==> (Trim(sh.warmup[i]) == READY_MARKER <==> i == |sh.warmup| - 1))
    && (forall j :: 0 <= j < |sh.frames| ==>
          '=' !in env.id(sh.first + j) && CleanFrame(env.id(sh.first + j), sh.frames[j]))
  }

  function FrameLength(f: Frame): nat {
    |f.noise| + |f.body| + 2
  }

  /** The lines from the j-th answer on. */
  function AnswerLines(env: Env, sh: Shell, j: nat): seq<string>
    requires j <= |sh.frames|
    decreases |sh.frames| - j
  {
    if j == |sh.frames| then []
    else FrameLines(env.id(sh.first + j), sh.frames[j]) + AnswerLines(env, sh, j + 1)
  }

  function ShellLines(env: Env, sh: Shell): seq<string> {
    sh.warmup + AnswerLines(env, sh, 0)
  }

  /** How many lines come before the j-th answer. */
  function Offset(sh: Shell, j: nat): nat
    requires j <= |sh.frames|
  {
    if j == 0 then |sh.warmup| else Offset(sh, j - 1) + FrameLength(sh.frames[j - 1])
  }

  /** Everything a run delivers as data, in whatever chunks. */
  function Delivered(events: seq<Event>): string {
    if events == [] then ""
    else (if events[0].Data? then events[0].chunk else "") + Delivered(events[1..])
  }

  /** The text consists of these lines, each ended by a newline, with or without a carriage return. */
  predicate Carries(text: string, lines: seq<string>) {
    Last(Split(text)) == "" && StripReturns(Init(Split(text))) == lines
  }

  /** How many lines an event completes. */
  function CompletedBy(l: Link, ev: Event): nat {
    if ev.Data? then |Split(l.buffer + ev.chunk)| - 1 else 0
  }

  /**
   * The shell does not answer what it has not been sent: when an event completes the START line of
   * the j-th answer, that command had been started before. `p` lines were complete already.
   */
  predicate Caused(env: Env, l: Link, events: seq<Event>, sh: Shell, p: nat)
    requires AtRest(env, l.session)
    decreases |events|
  {
    events == [] ||
    (var q := p + CompletedBy(l, events[0]);
     StepKeepsRest(env, l, events[0]);
     StartsSent(sh, l.session.started, q)
     && Caused(env, Step(env, l, events[0]), events[1..], sh, q))
  }

  predicate StartsSent(sh: Shell, started: nat, q: nat) {
    forall j | 0 <= j < |sh.frames| && Offset(sh, j) + |sh.frames[j].noise| < q :: started > sh.first + j
  }

  lemma FrameLinesLength(id: string, f: Frame)
    ensures |FrameLines(id, f)| == FrameLength(f)
  {
  }

  lemma {:induction false} OffsetIs(env: Env, sh: Shell, j: nat)
    requires j <= |sh.frames|
    ensures Offset(sh, j) <= |ShellLines(env, sh)| && ShellLines(env, sh)[Offset(sh, j)..] == AnswerLines(env, sh, j)
  {
    hide FrameLines;
    if j == 0 {
      WarmupFirst(env, sh);
    } else {
      OffsetIs(env, sh, j - 1);
      var frame := FrameLines(env.id(sh.first + j - 1), sh.frames[j - 1]);
      FrameLinesLength(env.id(sh.first + j - 1), sh.frames[j - 1]);
      hide ShellLines, FrameLength;
      assert AnswerLines(env, sh, j - 1) == frame + AnswerLines(env, sh, j);
      Further(ShellLines(env, sh), Offset(sh, j - 1), frame, AnswerLines(env, sh, j));
    }
  }

  lemma WarmupFirst(env: Env, sh: Shell)
    ensures |sh.warmup| <= |ShellLines(env, sh)| && ShellLines(env, sh)[|sh.warmup|..] == AnswerLines(env, sh, 0)
  {
    hide AnswerLines;
  }

  lemma Further(lines: seq<string>, at: nat, a: seq<string>, b: seq<string>)
    requires at <= |lines| && lines[at..] == a + b
    ensures at + |a| <= |lines| && lines[at + |a|..] == b
    ensures forall k :: 0 <= k < |a| ==> lines[at + k] == a[k]
  {
    assert lines[at + |a|..] == lines[at..][|a|..];
    forall k | 0 <= k < |a| ensures lines[at + k] == a[k] {
      assert lines[at..][k] == (a + b)[k];
    }
  }

  lemma LineOfFrame(env: Env, sh: Shell, j: nat, k: nat)
    requires j < |sh.frames| && k < FrameLength(sh.frames[j])
    ensures |FrameLines(env.id(sh.first + j), sh.frames[j])| == FrameLength(sh.frames[j])
    ensures Offset(sh, j) + k < |ShellLines(env, sh)|
    ensures ShellLines(env, sh)[Offset(sh, j) + k] == FrameLines(env.id(sh.first + j), sh.frames[j])[k]
  {
    hide ShellLines, FrameLines, FrameLength, Offset;
    OffsetIs(env, sh, j);
    var frame := FrameLines(env.id(sh.first + j), sh.frames[j]);
    FrameLinesLength(env.id(sh.first + j), sh.frames[j]);
    assert AnswerLines(env, sh, j) == frame + AnswerLines(env, sh, j + 1);
    hide AnswerLines;
    Further(ShellLines(env, sh), Offset(sh, j), frame, AnswerLines(env, sh, j + 1));
  }

  /* ---------- where a session stands in that stream ---------- */

  /** The first `j` answers have gone to the requests whose turn it was. */
  predicate Answered(sh: Shell, st: Session, j: nat) {
    && j <= |sh.frames| && |st.done| == sh.first + j <= |st.accepted|
    && forall i | 0 <= i < j :: st.done[sh.first + i] == Answer(st.accepted[sh.first + i], sh.frames[i])
  }

  /** After `k` lines of the j-th answer: the command is in flight once its START line is read. */
  predicate InFrame(sh: Shell, st: Session, j: nat, k: nat) {
    if j < |sh.frames| && k > |sh.frames[j].noise| then
      && k < FrameLength(sh.frames[j])
      && st.current.Some? && st.inside && st.heard == sh.frames[j].body[..k - |sh.frames[j].noise| - 1]
    else Unanswered(st) && (j == |sh.frames| ==> k == 0)
  }

  /** The session after `p` lines: `j` answers and `k` lines of the next, or still warming up. */
  predicate Reading(env: Env, sh: Shell, st: Session, p: nat, j: nat, k: nat) {
    && Sound(env, st) && !st.dead && Answered(sh, st, j)
    && if p < |sh.warmup| then !st.warmed && st.current == None && j == 0 && k == 0
       else st.warmed && Settled(st) && p == Offset(sh, j) + k && InFrame(sh, st, j, k)
  }

  lemma AnsweredKept(env: Env, sh: Shell, before: Session, after: Session, j: nat)
    requires Answered(sh, before, j) && Ledger(after)
    requires before.accepted <= after.accepted && after.done == before.done
    ensures Answered(sh, after, j)
  {
    assert before.accepted == after.accepted[..|before.accepted|];
  }

  /** Accepting a request moves nothing: it waits, or it is sent to a shell that has nothing to do. */
  lemma EnqueueKeepsPlace(env: Env, sh: Shell, st: Session, req: Request, p: nat, j: nat, k: nat)
    requires WritesSucceed(env) && Reading(env, sh, st, p, j, k) && !Enqueue(env, st, req).dead
    ensures Reading(env, sh, Enqueue(env, st, req), p, j, k)
  {
    var r := Enqueue(env, st, req);
    assert r == Accept(env, st, req);
    AnsweredKept(env, sh, st, r, j);
    if st.current.Some? {
      QueueBehind(env, st, req);
    }
  }

  /** The line that ends an answer completes the command in flight with what it was told. */
  lemma EndServed(env: Env, st: Session, f: Frame)
    requires Sound(env, st) && st.warmed && !st.dead && st.current.Some?
    requires '=' !in st.id && !Contains(f.tail, EndPrefix(st.id))
    ensures OnLine(env, st, EndLine(st.id, f.tail, f.rc)) == Finish(env, st, Some(f.rc), f.rc == 0)
  {
    hide Finish, IsEcho, EndLine, RunActions, Contains;
    EndLineRecognised(st.id, f.tail, f.rc);
  }

  /** Once warm, the next line is the k-th of the j-th answer. */
  lemma NextLine(env: Env, sh: Shell, st: Session, p: nat, j: nat, k: nat)
    requires Reading(env, sh, st, p, j, k) && |sh.warmup| <= p < |ShellLines(env, sh)|
    ensures j < |sh.frames| && k < FrameLength(sh.frames[j]) == |FrameLines(env.id(sh.first + j), sh.frames[j])|
    ensures ShellLines(env, sh)[p] == FrameLines(env.id(sh.first + j), sh.frames[j])[k]
  {
    hide ShellLines, FrameLines, AnswerLines, Sound, Settled;
    OffsetIs(env, sh, j);
    if j == |sh.frames| {
      NoAnswers(env, sh);
    } else {
      LineOfFrame(env, sh, j, k);
    }
  }

  lemma NoAnswers(env: Env, sh: Shell)
    ensures AnswerLines(env, sh, |sh.frames|) == []
  {
  }

  lemma WarmupLines(env: Env, sh: Shell, st: Session, p: nat, j: nat, k: nat)
    requires Reading(env, sh, st, p, j, k) && p < |sh.warmup|
    ensures j == 0 && k == 0 && p < |ShellLines(env, sh)| && ShellLines(env, sh)[p] == sh.warmup[p]
  {
  }

  /** The command in flight is the one whose answer comes next. */
  lemma InFlightIs(env: Env, sh: Shell, st: Session, j: nat)
    requires Sound(env, st) && !st.dead && Answered(sh, st, j)
    ensures st.current.Some? <==> st.started > sh.first + j
    ensures st.current.Some? ==> st.id == env.id(sh.first + j)
  {
  }

  lemma WarmupLine(env: Env, sh: Shell, st: Session, p: nat)
    requires WritesSucceed(env) && ValidShell(env, sh) && Reading(env, sh, st, p, 0, 0) && p < |sh.warmup|
    requires !OnLine(env, st, sh.warmup[p]).dead
    ensures Reading(env, sh, OnLine(env, st, sh.warmup[p]), p + 1, 0, 0)
  {
    hide Trim, Pump;
    var line := sh.warmup[p];
    if Trim(line) == READY_MARKER {
      var warm := st.(warmed := true);
      assert OnLine(env, st, line) == Pump(env, warm);
    }
  }

  lemma NoiseLine(env: Env, sh: Shell, st: Session, p: nat, j: nat, k: nat)
    requires ValidShell(env, sh) && Reading(env, sh, st, p, j, k) && p >= |sh.warmup|
    requires j < |sh.frames| && k < |sh.frames[j].noise|
    ensures OnLine(env, st, FrameLines(env.id(sh.first + j), sh.frames[j])[k]) == st
    ensures Reading(env, sh, st, p + 1, j, k + 1)
  {
    hide IsEcho, Contains, Trim, StartMarker, EndPrefix;
    InFlightIs(env, sh, st, j);
    assert IsNoise(env.id(sh.first + j), sh.frames[j].noise[k]);
  }

  lemma StartLineServed(env: Env, sh: Shell, st: Session, p: nat, j: nat, k: nat)
    requires ValidShell(env, sh) && Reading(env, sh, st, p, j, k) && p >= |sh.warmup|
    requires j < |sh.frames| && k == |sh.frames[j].noise| && StartsSent(sh, st.started, p + 1)
    ensures Reading(env, sh, OnLine(env, st, FrameLines(env.id(sh.first + j), sh.frames[j])[k]), p + 1, j, k + 1)
  {
    hide IsEcho, Contains, Trim, StartMarker, EndPrefix;
    InFlightIs(env, sh, st, j);
    assert st.current.Some?;
    StartRecognised(st.id);
    assert FrameLines(st.id, sh.frames[j])[k] == StartMarker(st.id);
    var r := OnLine(env, st, StartMarker(st.id));
    assert r == st.(inside := true);
    assert sh.frames[j].body[..0] == [];
    AnsweredKept(env, sh, st, r, j);
  }

  lemma BodyLine(env: Env, sh: Shell, st: Session, p: nat, j: nat, k: nat)
    requires ValidShell(env, sh) && Reading(env, sh, st, p, j, k) && p >= |sh.warmup|
    requires j < |sh.frames| && |sh.frames[j].noise| < k < FrameLength(sh.frames[j]) - 1
    requires !OnLine(env, st, FrameLines(env.id(sh.first + j), sh.frames[j])[k]).dead
    ensures Reading(env, sh, OnLine(env, st, FrameLines(env.id(sh.first + j), sh.frames[j])[k]), p + 1, j, k + 1)
  {
    var f := sh.frames[j];
    var i := k - |f.noise| - 1;
    var line := f.body[i];
    InFlightIs(env, sh, st, j);
    assert FrameLines(st.id, f)[k] == line && IsOutput(st.id, line);
    BodyCallback(env, st, line);
    hide OnLine, IsOutput, FrameLines, ValidShell, Reading, StreamActions, Ledger;
    var r := OutputHeard(env, st, line);
    HeardMore(env, sh, st, r, p, j, k);
  }

  lemma HeardMore(env: Env, sh: Shell, st: Session, r: Session, p: nat, j: nat, k: nat)
    requires Reading(env, sh, st, p, j, k) && p >= |sh.warmup|
    requires j < |sh.frames| && |sh.frames[j].noise| < k < FrameLength(sh.frames[j]) - 1
    requires Sound(env, r) && st.accepted <= r.accepted
    requires var line := sh.frames[j].body[k - |sh.frames[j].noise| - 1];
      r == st.(heard := st.heard + [line], queue := r.queue, accepted := r.accepted)
    ensures Reading(env, sh, r, p + 1, j, k + 1)
  {
    var f := sh.frames[j];
    var i := k - |f.noise| - 1;
    assert f.body[..i + 1] == f.body[..i] + [f.body[i]];
    AnsweredKept(env, sh, st, r, j);
    hide Ledger, Emptied, Posted, Answered, Offset;
  }

  /** A line of output that leaves the session alive was heard by a callback that does not drop it. */
  lemma BodyCallback(env: Env, st: Session, line: string)
    requires Sound(env, st) && st.warmed && !st.dead && st.current.Some? && st.inside
    requires IsOutput(st.id, line) && !OnLine(env, st, line).dead
    ensures Drop !in StreamActions(st.current.value, |st.heard|)
  {
    hide RunActions, StreamActions, IsEcho, Contains, Trim;
    var acts := StreamActions(st.current.value, |st.heard|);
    if Drop in acts {
      DropKills(env, st.(heard := st.heard + [line]), acts);
    }
  }

  lemma LastLine(env: Env, sh: Shell, st: Session, p: nat, j: nat, k: nat)
    requires WritesSucceed(env) && ValidShell(env, sh) && Reading(env, sh, st, p, j, k) && p >= |sh.warmup|
    requires j < |sh.frames| && k == FrameLength(sh.frames[j]) - 1
    requires !OnLine(env, st, FrameLines(env.id(sh.first + j), sh.frames[j])[k]).dead
    ensures Reading(env, sh, OnLine(env, st, FrameLines(env.id(sh.first + j), sh.frames[j])[k]), p + 1, j + 1, 0)
  {
    var f := sh.frames[j];
    InFlightIs(env, sh, st, j);
    assert FrameLines(st.id, f)[k] == EndLine(st.id, f.tail, f.rc);
    assert CleanFrame(st.id, f);
    EndServed(env, st, f);
    assert f.body[..|f.body|] == f.body;
    hide OnLine, Finish, FrameLines, EndLine, ValidShell, CleanFrame, Reading;
    var r := Finish(env, st, Some(f.rc), f.rc == 0);
    assert r.done == st.done + [Answer(st.current.value, f)];
    AnswerReached(env, sh, st, r, p, j, k);
  }

  lemma AnswerReached(env: Env, sh: Shell, st: Session, r: Session, p: nat, j: nat, k: nat)
    requires Reading(env, sh, st, p, j, k) && p >= |sh.warmup| && st.current.Some?
    requires j < |sh.frames| && k == FrameLength(sh.frames[j]) - 1
    requires Sound(env, r) && Settled(r) && Unanswered(r) && Extends(st, r) && !r.dead
    requires r.done == st.done + [Answer(st.current.value, sh.frames[j])]
    ensures Reading(env, sh, r, p + 1, j + 1, 0)
  {
    AnsweredNext(env, sh, st, r, j);
    hide Ledger, Emptied, Posted, Answered;
  }

  lemma AnsweredNext(env: Env, sh: Shell, st: Session, r: Session, j: nat)
    requires Ledger(st) && st.current.Some? && Answered(sh, st, j) && j < |sh.frames|
    requires Ledger(r) && st.accepted <= r.accepted && r.done == st.done + [Answer(st.current.value, sh.frames[j])]
    ensures Answered(sh, r, j + 1)
  {
    assert st.accepted[|st.done|] == st.current.value;
    forall i | 0 <= i < j + 1 ensures r.done[sh.first + i] == Answer(r.accepted[sh.first + i], sh.frames[i]) {
      assert r.accepted[sh.first + i] == st.accepted[sh.first + i];
    }
  }

  /** One line of an answer takes the session one line further. */
  lemma LineServed(env: Env, sh: Shell, st: Session, p: nat, j: nat, k: nat) returns (j': nat, k': nat)
    requires WritesSucceed(env) && ValidShell(env, sh) && Reading(env, sh, st, p, j, k)
    requires p < |ShellLines(env, sh)| && StartsSent(sh, st.started, p + 1)
    requires !OnLine(env, st, ShellLines(env, sh)[p]).dead
    ensures Reading(env, sh, OnLine(env, st, ShellLines(env, sh)[p]), p + 1, j', k')
  {
    hide Reading, ShellLines, FrameLines, ValidShell, StartsSent, OnLine, FrameLength;
    if p < |sh.warmup| {
      WarmupLines(env, sh, st, p, j, k);
      WarmupLine(env, sh, st, p);
      return 0, 0;
    }
    NextLine(env, sh, st, p, j, k);
    var f := sh.frames[j];
    if k < |f.noise| {
      NoiseLine(env, sh, st, p, j, k);
      return j, k + 1;
    } else if k == |f.noise| {
      StartLineServed(env, sh, st, p, j, k);
      return j, k + 1;
    } else if k < FrameLength(f) - 1 {
      BodyLine(env, sh, st, p, j, k);
      return j, k + 1;
    } else {
      LastLine(env, sh, st, p, j, k);
      return j + 1, 0;
    }
  }

  /** And so do several, as when a chunk completes them at once. */
  lemma {:induction false} LinesServed(env: Env, sh: Shell, st: Session, p: nat, j: nat, k: nat, q: nat)
    returns (j': nat, k': nat)
    requires WritesSucceed(env) && ValidShell(env, sh) && Reading(env, sh, st, p, j, k)
    requires p <= q <= |ShellLines(env, sh)| && StartsSent(sh, st.started, q)
    requires !OnLines(env, st, ShellLines(env, sh)[p..q]).dead
    ensures Reading(env, sh, OnLines(env, st, ShellLines(env, sh)[p..q]), q, j', k')
    decreases q - p
  {
    hide Reading, ValidShell, ShellLines, OnLine;
    var lines := ShellLines(env, sh);
    ReadingSound(env, sh, st, p, j, k);
    if p == q {
      assert lines[p..q] == [];
      return j, k;
    }
    assert lines[p..q][0] == lines[p] && lines[p..q][1..] == lines[p + 1..q];
    var r := OnLine(env, st, lines[p]);
    StaysDead(env, r, lines[p + 1..q]);
    FewerSent(sh, st.started, r.started, p + 1, q);
    var j1, k1 := LineServed(env, sh, st, p, j, k);
    j', k' := LinesServed(env, sh, r, p + 1, j1, k1, q);
  }

  lemma ReadingSound(env: Env, sh: Shell, st: Session, p: nat, j: nat, k: nat)
    requires Reading(env, sh, st, p, j, k)
    ensures AtRest(env, st) && !st.dead
  {
  }

  lemma StaysDead(env: Env, st: Session, lines: seq<string>)
    requires Sound(env, st)
    ensures st.dead ==> OnLines(env, st, lines).dead
  {
  }

  lemma FewerSent(sh: Shell, before: nat, after: nat, p: nat, q: nat)
    requires StartsSent(sh, before, q) && before <= after && p <= q
    ensures StartsSent(sh, before, p) && StartsSent(sh, after, q)
  {
  }

  /* ---------- what arrives is what was printed ---------- */

  /** A chunk completes the next lines of the stream, and what is left of the text carries the others. */
  lemma CarriesOn(buffer: string, chunk: string, rest: string, lines: seq<string>)
    requires Carries(buffer + (chunk + rest), lines)
    ensures var raws := Split(buffer + chunk);
      && |raws| - 1 <= |lines|
      && StripReturns(Init(raws)) == lines[..|raws| - 1]
      && Plain(Last(raws)) && Carries(Last(raws) + rest, lines[|raws| - 1..])
  {
    hide Carries, Split, Init, Last, Plain;
    assert buffer + (chunk + rest) == (buffer + chunk) + rest;
    CarriesRest(buffer + chunk, rest, lines);
  }

  lemma CarriesRest(text: string, rest: string, lines: seq<string>)
    requires Carries(text + rest, lines)
    ensures var raws := Split(text);
      && |raws| - 1 <= |lines|
      && StripReturns(Init(raws)) == lines[..|raws| - 1]
      && Plain(Last(raws)) && Carries(Last(raws) + rest, lines[|raws| - 1..])
  {
    hide Split, StripReturns, Plain;
    var raws := Split(text);
    var later := Split(Last(raws) + rest);
    SplitAppend(text, rest);
    SplitParts(text);
    EndsOf(Init(raws), later);
    StripReturnsAppend(Init(raws), Init(later));
    hide Init, Last;
    var a, b := StripReturns(Init(raws)), StripReturns(Init(later));
    assert lines == a + b;
    assert lines[..|a|] == a && lines[|a|..] == b;
  }

  lemma EndsOf(a: seq<string>, b: seq<string>)
    requires b != []
    ensures Init(a + b) == a + Init(b) && Last(a + b) == Last(b)
  {
  }

  lemma NothingLeft(buffer: string, lines: seq<string>)
    requires Plain(buffer) && Carries(buffer, lines)
    ensures lines == []
  {
    SplitPlain(buffer);
  }

  lemma {:induction false} RunStaysDead(env: Env, l: Link, events: seq<Event>)
    requires AtRest(env, l.session) && l.session.dead
    ensures Run(env, l, events).session.dead
    decreases |events|
  {
    if events != [] {
      StepKeepsRest(env, l, events[0]);
      RunStaysDead(env, Step(env, l, events[0]), events[1..]);
    }
  }

  /** An event other than data and a request either does nothing or kills a live session. */
  lemma OtherEvents(env: Env, l: Link, ev: Event)
    requires AtRest(env, l.session) && !l.session.dead && !ev.Data? && !ev.Enqueued?
    ensures Step(env, l, ev) == l || Step(env, l, ev).session.dead
  {
    hide Finish;
  }

  /** The lines an event completes and those the rest of the run completes are those of the whole run. */
  lemma CompletedAlong(l: Link, ev: Event, later: seq<Event>, buffer: string)
    requires buffer == (if ev.Data? then Last(Split(l.buffer + ev.chunk)) else l.buffer)
    ensures CompletedBy(l, ev) + |Split(buffer + Delivered(later))| == |Split(l.buffer + Delivered([ev] + later))|
  {
    hide Split, Init, Last;
    var data := Delivered(later);
    assert ([ev] + later)[1..] == later;
    if ev.Data? {
      assert l.buffer + (ev.chunk + data) == (l.buffer + ev.chunk) + data;
      SplitAppend(l.buffer + ev.chunk, data);
      InitLength(Split(l.buffer + ev.chunk));
    } else {
      assert "" + data == data;
    }
  }

  lemma InitLength(parts: seq<string>)
    requires parts != []
    ensures |Init(parts)| == |parts| - 1
  {
  }

  /**
   * From anywhere in the stream to anywhere further down: a run that leaves the session alive takes
   * it exactly as far as the run completes lines, whatever the shell still has to say after it.
   */
  lemma {:induction false} RunServes(env: Env, sh: Shell, l: Link, events: seq<Event>, rest: string,
                                     p: nat, j: nat, k: nat)
    returns (j': nat, k': nat)
    requires WritesSucceed(env) && ValidShell(env, sh) && Reading(env, sh, l.session, p, j, k) && Plain(l.buffer)
    requires AtRest(env, l.session) && Caused(env, l, events, sh, p)
    requires p <= |ShellLines(env, sh)| && Carries(l.buffer + (Delivered(events) + rest), ShellLines(env, sh)[p..])
    requires !Run(env, l, events).session.dead
    ensures var q := p + |Split(l.buffer + Delivered(events))| - 1;
      var r := Run(env, l, events);
      && q <= |ShellLines(env, sh)| && Reading(env, sh, r.session, q, j', k')
      && Plain(r.buffer) && Carries(r.buffer + rest, ShellLines(env, sh)[q..])
    decreases |events|
  {
    hide ValidShell, Reading, ShellLines, Carries, Plain, Sound, Settled, Step, StartsSent, CompletedBy, Split;
    if events == [] {
      assert l.buffer + "" == l.buffer && "" + rest == rest;
      SplitPlain(l.buffer);
      return j, k;
    }
    var ev, later := events[0], events[1..];
    ReadingSound(env, sh, l.session, p, j, k);
    StepKeepsRest(env, l, ev);
    var l' := Step(env, l, ev);
    if l'.session.dead {
      RunStaysDead(env, l', later);
    }
    var chunk := if ev.Data? then ev.chunk else "";
    assert (chunk + Delivered(later)) + rest == chunk + (Delivered(later) + rest);
    var j1, k1 := EventServed(env, sh, l, ev, Delivered(later) + rest, p, j, k);
    assert [ev] + later == events;
    BufferAfter(env, l, ev);
    CompletedAlong(l, ev, later, l'.buffer);
    j', k' := RunServes(env, sh, l', later, rest, p + CompletedBy(l, ev), j1, k1);
  }

  lemma BufferAfter(env: Env, l: Link, ev: Event)
    requires Sound(env, l.session)
    ensures Step(env, l, ev).buffer == if ev.Data? then Last(Split(l.buffer + ev.chunk)) else l.buffer
  {
    hide Sound, Split, Last, Enqueue, Close, OnTimeout, OnLines;
  }

  lemma AllAnswered(env: Env, sh: Shell, st: Session, p: nat, j: nat, k: nat)
    requires Reading(env, sh, st, p, j, k) && p <= |ShellLines(env, sh)| && ShellLines(env, sh)[p..] == []
    ensures Answered(sh, st, |sh.frames|)
  {
    OffsetIs(env, sh, 0);
    if p >= |sh.warmup| && j < |sh.frames| {
      LineOfFrame(env, sh, j, k);
    }
  }

  /** A chunk takes the session as far as it completes lines. */
  lemma DataServed(env: Env, sh: Shell, l: Link, chunk: string, rest: string, p: nat, j: nat, k: nat)
    returns (j': nat, k': nat)
    requires WritesSucceed(env) && ValidShell(env, sh) && Reading(env, sh, l.session, p, j, k)
    requires Sound(env, l.session) && !OnData(env, l, chunk).session.dead
    requires p <= |ShellLines(env, sh)| && Carries(l.buffer + (chunk + rest), ShellLines(env, sh)[p..])
    requires StartsSent(sh, l.session.started, p + |Split(l.buffer + chunk)| - 1)
    ensures var q := p + |Split(l.buffer + chunk)| - 1;
      var l' := OnData(env, l, chunk);
      && q <= |ShellLines(env, sh)| && Reading(env, sh, l'.session, q, j', k') && Plain(l'.buffer)
      && Carries(l'.buffer + rest, ShellLines(env, sh)[q..])
  {
    hide ValidShell, Reading, ShellLines, Carries, Plain, Sound, Settled, Split, StripReturns, OnLines, ExtendsOnline,
      StartsSent, Init, Last;
    var lines := ShellLines(env, sh);
    var q := p + |Split(l.buffer + chunk)| - 1;
    CarriesOn(l.buffer, chunk, rest, lines[p..]);
    assert lines[p..][..q - p] == lines[p..q] && lines[p..][q - p..] == lines[q..];
    j', k' := LinesServed(env, sh, l.session, p, j, k, q);
  }

  /** One event takes the session as far as it completes lines. */
  lemma EventServed(env: Env, sh: Shell, l: Link, ev: Event, rest: string, p: nat, j: nat, k: nat)
    returns (j': nat, k': nat)
    requires WritesSucceed(env) && ValidShell(env, sh) && Reading(env, sh, l.session, p, j, k) && Plain(l.buffer)
    requires AtRest(env, l.session) && !l.session.dead && !Step(env, l, ev).session.dead
    requires p <= |ShellLines(env, sh)|
    requires Carries(l.buffer + ((if ev.Data? then ev.chunk else "") + rest), ShellLines(env, sh)[p..])
    requires StartsSent(sh, l.session.started, p + CompletedBy(l, ev))
    ensures var q := p + CompletedBy(l, ev);
      var l' := Step(env, l, ev);
      && q <= |ShellLines(env, sh)| && Reading(env, sh, l'.session, q, j', k') && Plain(l'.buffer)
      && Carries(l'.buffer + rest, ShellLines(env, sh)[q..])
  {
    hide ValidShell, Reading, ShellLines, Carries, Plain, Sound, Settled, Split, OnData, Enqueue, Close, OnTimeout,
      StartsSent;
    j', k' := j, k;
    assert "" + rest == rest;
    if ev.Data? {
      j', k' := DataServed(env, sh, l, ev.chunk, rest, p, j, k);
    } else if ev.Enqueued? {
      EnqueueKeepsPlace(env, sh, l.session, ev.req, p, j, k);
    } else {
      OtherEvents(env, l, ev);
    }
  }

  /** Terminal output, every line ended by carriage return and newline, is one such text. */
  function Printed(lines: seq<string>): string {
    if lines == [] then "" else lines[0] + "\r\n" + Printed(lines[1..])
  }

  lemma {:induction false} PrintedCarries(lines: seq<string>)
    requires forall i :: 0 <= i < |lines| ==> Plain(lines[i])
    ensures Carries(Printed(lines), lines)
  {
    if lines != [] {
      var rest := Split(Printed(lines[1..]));
      PrintedCarries(lines[1..]);
      PrintedFirst(lines[0], Printed(lines[1..]));
      StripFirst(lines[0], rest);
    }
  }

  /** A stream without carriage returns carries its lines as well, and loses nothing of them. */
  function Piped(lines: seq<string>): string {
    if lines == [] then "" else lines[0] + "\n" + Piped(lines[1..])
  }

  lemma {:induction false} PipedCarries(lines: seq<string>)
    requires forall i :: 0 <= i < |lines| ==> Plain(lines[i]) && (lines[i] != "" ==> lines[i][|lines[i]| - 1] != '\r')
    ensures Carries(Piped(lines), lines)
  {
    if lines != [] {
      var rest := Split(Piped(lines[1..]));
      PipedCarries(lines[1..]);
      assert lines[0] + "\n" + Piped(lines[1..]) == Piped(lines);
      SplitAtNewline(lines[0], Piped(lines[1..]));
      SplitPlain(lines[0]);
      BareFirst(lines[0], rest);
    }
  }

  lemma BareFirst(line: string, rest: seq<string>)
    requires |rest| >= 1 && (line != "" ==> line[|line| - 1] != '\r')
    ensures Last([line] + rest) == Last(rest)
    ensures StripReturns(Init([line] + rest)) == [line] + StripReturns(Init(rest))
  {
    assert Init([line] + rest) == [line] + Init(rest);
    assert ([line] + Init(rest))[1..] == Init(rest);
  }

  lemma PrintedFirst(line: string, rest: string)
    requires Plain(line)
    ensures Split(line + "\r\n" + rest) == [line + "\r"] + Split(rest)
  {
    assert line + "\r\n" + rest == line + "\r" + "\n" + rest;
    SplitAtNewline(line + "\r", rest);
    SplitPlain(line + "\r");
  }

  lemma StripFirst(line: string, rest: seq<string>)
    requires |rest| >= 1
    ensures Last([line + "\r"] + rest) == Last(rest)
    ensures StripReturns(Init([line + "\r"] + rest)) == [line] + StripReturns(Init(rest))
  {
    var l := line + "\r";
    assert Init([l] + rest) == [l] + Init(rest);
    assert ([l] + Init(rest))[1..] == Init(rest);
    assert Init(l) == line && Last(l) == '\r';
  }

  /**
   * Demultiplexing over whole runs. Requests arrive from outside at any moment, also between the
   * chunks of an answer, or while nothing is in flight; callbacks queue more; timers go off; and the
   * stream is cut anywhere. If the shell, warm or not, prints its answers one after another, never
   * before it was sent the command, and the session is alive at the end, then the j-th request
   * accepted from here on has been told exactly the j-th answer's lines and status, with success
   * exactly when that is zero.
   */
  lemma Demultiplex(env: Env, sh: Shell, l: Link, events: seq<Event>)
    requires AtRest(env, l.session) && Plain(l.buffer) && sh.first == |l.session.done|
    requires if sh.warmup == [] then l.session.warmed && Unanswered(l.session)
             else !l.session.warmed && l.session.current == None
    requires WritesSucceed(env) && ValidShell(env, sh) && Caused(env, l, events, sh, 0)
    requires Carries(l.buffer + Delivered(events), ShellLines(env, sh))
    requires !Run(env, l, events).session.dead
    ensures var r := Run(env, l, events).session;
      && |r.done| == |l.session.done| + |sh.frames| <= |r.accepted|
      && forall j :: 0 <= j < |sh.frames| ==>
           var f := sh.frames[j];
           r.done[|l.session.done| + j] == Completion(r.accepted[|l.session.done| + j], f.body, f.rc == 0, Some(f.rc))
  {
    hide ValidShell, Carries, Plain, ShellLines, Caused, Run, Reading, Sound, Settled;
    if l.session.dead {
      RunStaysDead(env, l, events);
    }
    var lines, r := ShellLines(env, sh), Run(env, l, events);
    assert lines[0..] == lines && Delivered(events) + "" == Delivered(events) && r.buffer + "" == r.buffer;
    StartsReading(env, sh, l.session);
    var j, k := RunServes(env, sh, l, events, "", 0, 0, 0);
    var q := |Split(l.buffer + Delivered(events))| - 1;
    NothingLeft(r.buffer, lines[q..]);
    AllAnswered(env, sh, r.session, q, j, k);
  }

  lemma StartsReading(env: Env, sh: Shell, st: Session)
    requires AtRest(env, st) && !st.dead && sh.first == |st.done|
    requires if sh.warmup == [] then st.warmed && Unanswered(st) else !st.warmed && st.current == None
    ensures Reading(env, sh, st, 0, 0, 0)
  {
  }

  /** In particular over every run of a fresh session: banner, ready marker, answers. */
  lemma DemultiplexFromStart(env: Env, sh: Shell, events: seq<Event>)
    requires sh.first == 0 && sh.warmup != []
    requires WritesSucceed(env) && ValidShell(env, sh) && Caused(env, Link("", FRESH), events, sh, 0)
    requires Carries(Delivered(events), ShellLines(env, sh))
    requires !Run(env, Link("", FRESH), events).session.dead
    ensures var r := Run(env, Link("", FRESH), events).session;
      && |r.done| == |sh.frames| <= |r.accepted|
      && forall j :: 0 <= j < |sh.frames| ==>
           r.done[j] == Completion(r.accepted[j], sh.frames[j].body, sh.frames[j].rc == 0, Some(sh.frames[j].rc))
  {
    FreshAtRest(env);
    hide ValidShell, Carries, ShellLines, Caused, Run, AtRest;
    assert "" + Delivered(events) == Delivered(events);
    Demultiplex(env, sh, Link("", FRESH), events);
  }
}
