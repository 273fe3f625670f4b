/**
 * What the bastion shell is sent for one request: the script as base64 in a quoted heredoc,
 * the two framing markers around its execution, and (in the per-call path) the throttled
 * writer that feeds the text to the pseudo-terminal.
 */
module BastionUpload {
  import opened Wrappers
  import opened Text
  import opened Base64

  const DELIMITER := "AURA_B64_EOF"
  const LINE_WIDTH: nat := 76

  function StartMarker(id: string): string {
    "__AURA_CMD_START_" + id + "__"
  }

  function EndPrefix(id: string): string {
    "__AURA_CMD_END_" + id + "__="
  }

  /** Greedy pieces of at most `width` characters, as a global `.{1,76}` match returns them. */
  function Pieces(s: string, width: nat): seq<string>
    requires width >= 1
  {
    if |s| == 0 then []
    else if |s| <= width then [s]
    else [s[..width]] + Pieces(s[width..], width)
  }

  /** `b64.match(/.{1,76}/g) ?? [b64]`: an empty text still gives one, empty, line. */
  function HeredocLines(b64: string): seq<string> {
    if b64 == "" then [b64] else Pieces(b64, LINE_WIDTH)
  }

  function RemoteB64(id: string): string {
    "/tmp/.aura-bmux-" + id + ".b64"
  }

  function RemoteFile(id: string): string {
    "/tmp/.aura-bmux-" + id + ".sh"
  }

  function HeredocOpener(id: string): string {
    Concat(["cat > ", RemoteB64(id), " <<'", DELIMITER, "'"])
  }

  function EchoStart(id: string): string {
    "echo " + StartMarker(id)
  }

  function RunLine(id: string): string {
    Concat(["base64 -d < ", RemoteB64(id), " > ", RemoteFile(id), " && rm -f ", RemoteB64(id),
            " && bash ", RemoteFile(id), "; __AURA_RC=$?; rm -f ", RemoteFile(id),
            "; echo ", EndPrefix(id), "$__AURA_RC"])
  }

  function CommandLines(id: string, script: seq<Byte>): seq<string> {
    [HeredocOpener(id)] + HeredocLines(Encode(script)) + [DELIMITER]
    + [EchoStart(id), RunLine(id), ""]
  }

  /** The text `pump` writes to the shell's standard input. */
  function Command(id: string, script: seq<Byte>): string {
    Join(CommandLines(id, script))
  }

  /* ---------- how the shell reads it back ---------- */

  /** A quoted heredoc takes every following line verbatim up to one equal to the delimiter. */
  function ReadHeredoc(lines: seq<string>): Option<(seq<string>, seq<string>)> {
    if lines == [] then None
    else if lines[0] == DELIMITER then Some(([], lines[1..]))
    else
      match ReadHeredoc(lines[1..])
      case Some((body, rest)) => Some(([lines[0]] + body, rest))
      case None => None
  }

  lemma {:induction false} PiecesFit(s: string, width: nat)
    requires width >= 1
    ensures Concat(Pieces(s, width)) == s
    ensures forall l :: l in Pieces(s, width) ==> 0 < |l| <= width && forall c :: c in l ==> c in s
    ensures s != "" ==> Pieces(s, width) != []
  {
    if |s| > width {
      PiecesFit(s[width..], width);
      assert s == s[..width] + s[width..];
      assert Pieces(s, width)[1..] == Pieces(s[width..], width);
    } else if |s| > 0 {
      assert Concat([s]) == s + Concat([]);
    }
  }

  lemma DelimiterOutsideAlphabet(l: string)
    requires forall c :: c in l ==> InAlphabet(c)
    ensures l != DELIMITER && Plain(l)
  {
    assert |l| > 4 ==> InAlphabet(l[4]);
    assert DELIMITER[4] == '_';
  }

  /** No uploaded line can end the heredoc early or be cut by the shell, whatever the script. */
  lemma HeredocLinesSafe(script: seq<Byte>)
    ensures forall l :: l in HeredocLines(Encode(script)) ==>
      |l| <= 76 && l != DELIMITER && Plain(l)
    ensures Concat(HeredocLines(Encode(script))) == Encode(script)
  {
    var b64 := Encode(script);
    PiecesFit(b64, LINE_WIDTH);
    EncodeAlphabet(script);
    if b64 == "" {
      assert Concat([b64]) == b64 + Concat([]);
      DelimiterOutsideAlphabet(b64);
    }
    forall l | l in Pieces(b64, LINE_WIDTH) ensures l != DELIMITER && Plain(l) {
      DelimiterOutsideAlphabet(l);
    }
  }

  lemma {:induction false} ReadHeredocBody(body: seq<string>, rest: seq<string>)
    requires forall i :: 0 <= i < |body| ==> body[i] != DELIMITER
    ensures ReadHeredoc(body + ([DELIMITER] + rest)) == Some((body, rest))
  {
    var lines := body + ([DELIMITER] + rest);
    if body == [] {
      assert lines == [DELIMITER] + rest;
      assert lines[1..] == rest;
    } else {
      assert lines[1..] == body[1..] + ([DELIMITER] + rest);
      ReadHeredocBody(body[1..], rest);
      assert body == [body[0]] + body[1..];
    }
  }

  lemma FixedLinesPlain(id: string)
    requires Plain(id)
    ensures Plain(HeredocOpener(id)) && Plain(EchoStart(id)) && Plain(RunLine(id)) && Plain(DELIMITER)
  {
    PlainConcat(["cat > ", RemoteB64(id), " <<'", DELIMITER, "'"]);
    PlainConcat(["base64 -d < ", RemoteB64(id), " > ", RemoteFile(id), " && rm -f ", RemoteB64(id),
            " && bash ", RemoteFile(id), "; __AURA_RC=$?; rm -f ", RemoteFile(id),
            "; echo ", EndPrefix(id), "$__AURA_RC"]);
  }

  /** Upload fidelity: the shell's heredoc holds exactly the script, and execution follows it. */
  lemma UploadFidelity(id: string, script: seq<Byte>) returns (body: seq<string>)
    requires Plain(id)
    ensures Split(Command(id, script))[0] == HeredocOpener(id)
    ensures ReadHeredoc(Split(Command(id, script))[1..]) == Some((body, [EchoStart(id), RunLine(id), ""]))
    ensures forall l :: l in body ==> |l| <= 76
    ensures Decode(Concat(body)) == Some(script)
  {
    hide HeredocOpener, EchoStart, RunLine, HeredocLines, Encode, Decode, Split, Join, ReadHeredoc, Concat;
    body := HeredocLines(Encode(script));
    var rest := [EchoStart(id), RunLine(id), ""];
    HeredocLinesSafe(script);
    RoundTrip(script);
    FixedLinesPlain(id);
    CommandCut(HeredocOpener(id), body, rest);
  }

  lemma CommandCut(opener: string, body: seq<string>, rest: seq<string>)
    requires Plain(opener) && Plain(DELIMITER)
    requires forall i :: 0 <= i < |body| ==> Plain(body[i]) && body[i] != DELIMITER
    requires forall i :: 0 <= i < |rest| ==> Plain(rest[i])
    ensures var lines := Split(Join([opener] + body + [DELIMITER] + rest));
      lines[0] == opener && ReadHeredoc(lines[1..]) == Some((body, rest))
  {
    hide Split, Join, ReadHeredoc, Plain;
    var lines := [opener] + body + [DELIMITER] + rest;
    PartsPlain(opener, body, DELIMITER, rest);
    SplitJoin(lines);
    ReadHeredocBody(body, rest);
  }

  lemma PartsPlain(first: string, body: seq<string>, d: string, rest: seq<string>)
    requires Plain(first) && Plain(d)
    requires forall i :: 0 <= i < |body| ==> Plain(body[i])
    requires forall i :: 0 <= i < |rest| ==> Plain(rest[i])
    ensures var lines := [first] + body + [d] + rest;
      lines[0] == first && lines[1..] == body + ([d] + rest) && forall i :: 0 <= i < |lines| ==> Plain(lines[i])
  {
    hide Plain;
  }

  /* ---------- the throttled writer of the per-call path ---------- */

  /** `pump` in ssh-exec: timer ticks write `CHUNK` characters each until the text is used up. */
  class ThrottledWriter {
    const text: string
    const chunk: nat
    var offset: nat
    var written: string  // what the pseudo-terminal has been given so far
    var scheduled: bool  // another tick is pending

    ghost predicate Valid()
      reads this
    {
      offset <= |text| && written == text[..offset]
    }

    constructor (text: string, chunk: nat)
      ensures Valid() && this.text == text && this.chunk == chunk && offset == 0 && scheduled
    {
      this.text, this.chunk := text, chunk;
      offset, written, scheduled := 0, "", true;
    }

    /**
     * One call of `pump`. `exited` says the process has already gone, `writeOk` whether the
     * write is accepted.
     */
    method Tick(exited: bool, writeOk: bool)
      requires Valid()
      modifies this
      ensures Valid()
      ensures offset == TickOffset(text, chunk, old(offset), exited, writeOk)
      ensures scheduled == (!exited && writeOk && offset < |text|)
    {
      scheduled := false;
      if offset >= |text| || exited {
        return;
      }
      var end := if offset + chunk < |text| then offset + chunk else |text|;
      if !writeOk {
        return;
      }
      written := written + text[offset..end];
      offset := end;
      scheduled := offset < |text|;
    }
  }

  function TickOffset(text: string, chunk: nat, offset: nat, exited: bool, writeOk: bool): nat {
    if offset >= |text| || exited || !writeOk then offset
    else if offset + chunk < |text| then offset + chunk
    else |text|
  }

  /** Where `n` undisturbed ticks leave the writer. */
  function AfterTicks(text: string, chunk: nat, n: nat): nat {
    if n == 0 then 0 else TickOffset(text, chunk, AfterTicks(text, chunk, n - 1), false, true)
  }

  lemma {:induction false} TicksReach(text: string, chunk: nat, n: nat)
    ensures AfterTicks(text, chunk, n) == if n * chunk < |text| then n * chunk else |text|
  {
    if n > 0 {
      TicksReach(text, chunk, n - 1);
      assert n * chunk == (n - 1) * chunk + chunk;
    }
  }

  /** The whole command is delivered after finitely many ticks exactly when the chunk size is positive. */
  lemma ThrottleFinishes(text: string, chunk: nat)
    requires text != ""
    ensures (exists n: nat :: AfterTicks(text, chunk, n) == |text|) <==> chunk >= 1
  {
    if chunk >= 1 {
      TicksReach(text, chunk, |text|);
      assert |text| * chunk >= |text| by {
        assert |text| * chunk == |text| + |text| * (chunk - 1);
      }
      assert AfterTicks(text, chunk, |text|) == |text|;
    } else {
      forall n: nat ensures AfterTicks(text, chunk, n) == 0 {
        TicksReach(text, chunk, n);
      }
    }
  }
}
