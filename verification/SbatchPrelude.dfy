/**
 * The blocks Aura adds to a batch script before submitting it: taking old ones out, putting new
 * ones in after the leading comment block, and pinning `--output`.
 */
module SbatchPrelude {
  import opened Text

  const OPEN := "# --- aura:"
  const CLOSE := "# --- end aura prelude ---"
  const PULL := "Pull cluster-level " + ("credentials staged in " + "a 0600 file")
  const FILE := "__AURA_SECRETS_FILE"
  const UNSET := "unset __AURA_SECRETS_FILE"
  const SBATCH := "#SBATCH"

  /* ---------- taking old blocks out ---------- */

  datatype Mode = Outside | InPrelude | InSecrets

  /** A line that starts an Aura block. */
  predicate Opens(line: string) {
    StartsWith(line, OPEN) || Contains(line, PULL)
  }

  function Next(m: Mode, line: string): Mode {
    match m
    case Outside => if StartsWith(line, OPEN) then InPrelude else if Contains(line, PULL) then InSecrets else Outside
    case InPrelude => if StartsWith(line, CLOSE) then Outside else InPrelude
    case InSecrets => if StartsWith(line, UNSET) then Outside else InSecrets
  }

  function After(m: Mode, lines: seq<string>): Mode {
    if lines == [] then m else Next(After(m, Init(lines)), Last(lines))
  }

  /** The lines that survive when the scan starts in mode `m`. */
  function Kept(m: Mode, lines: seq<string>): seq<string> {
    if lines == [] then []
    else if After(m, Init(lines)) == Outside && !Opens(Last(lines)) then Kept(m, Init(lines)) + [Last(lines)]
    else Kept(m, Init(lines))
  }

  function DropBlank(lines: seq<string>): (r: seq<string>)
    ensures r <= lines
    ensures r != [] ==> Last(r) != ""
    ensures forall i :: |r| <= i < |lines| ==> lines[i] == ""
  {
    if lines != [] && Last(lines) == "" then
      var r := DropBlank(Init(lines));
      assert forall i :: |r| <= i < |lines| - 1 ==> Init(lines)[i] == "";
      r
    else lines
  }

  predicate EndsLine(s: string) {
    s != "" && Last(s) == '\n'
  }

  /** The early exit's test. */
  predicate Mentions(script: string) {
    Contains(script, OPEN) || Contains(script, FILE)
  }

  /** What `stripAuraPrelude` returns. */
  function Strip(script: string): string {
    if Mentions(script) then
      Join(DropBlank(Kept(Outside, Split(script)))) + (if EndsLine(script) then "\n" else "")
    else script
  }

  method StripAuraPrelude(script: string) returns (r: string)
    ensures r == Strip(script)
  {
    if !Mentions(script) {
      return script;
    }
    hide Mentions, Opens;
    var lines := Split(script);
    var out := [];
    var inPrelude, inSecrets := false, false;
    for i := 0 to |lines|
      invariant !(inPrelude && inSecrets)
      invariant After(Outside, lines[..i]) == if inPrelude then InPrelude else if inSecrets then InSecrets else Outside
      invariant out == Kept(Outside, lines[..i])
    {
      var line := lines[i];
      assert Init(lines[..i + 1]) == lines[..i] && Last(lines[..i + 1]) == line;
      OpensEither(line);
      if !inPrelude && !inSecrets {
        if StartsWith(line, OPEN) {
          inPrelude := true;
        } else if Contains(line, PULL) {
          inSecrets := true;
        } else {
          out := out + [line];
        }
      } else if inPrelude {
        if StartsWith(line, CLOSE) {
          inPrelude := false;
        }
      } else {
        if StartsWith(line, UNSET) {
          inSecrets := false;
        }
      }
    }
    assert lines[..|lines|] == lines;
    while |out| > 0 && out[|out| - 1] == ""
      invariant DropBlank(out) == DropBlank(Kept(Outside, lines))
    {
      out := out[..|out| - 1];
    }
    r := Join(out) + if EndsLine(script) then "\n" else "";
  }

  lemma OpensEither(line: string)
    ensures Opens(line) <==> StartsWith(line, OPEN) || Contains(line, PULL)
  {
  }

  /* ---------- scanning in pieces ---------- */

  lemma {:induction false} AfterConcat(m: Mode, a: seq<string>, b: seq<string>)
    ensures After(m, a + b) == After(After(m, a), b)
  {
    hide Next;
    if b == [] {
      assert a + b == a;
    } else {
      assert Init(a + b) == a + Init(b);
      AfterConcat(m, a, Init(b));
    }
  }

  lemma {:induction false} KeptConcat(m: Mode, a: seq<string>, b: seq<string>)
    ensures Kept(m, a + b) == Kept(m, a) + Kept(After(m, a), b)
  {
    hide Opens, Next;
    if b == [] {
      assert a + b == a;
    } else {
      assert Init(a + b) == a + Init(b);
      AfterConcat(m, a, Init(b));
      KeptConcat(m, a, Init(b));
    }
  }

  predicate NoneOpen(lines: seq<string>) {
    forall i :: 0 <= i < |lines| ==> !Opens(lines[i])
  }

  lemma {:induction false} KeptAll(lines: seq<string>)
    requires NoneOpen(lines)
    ensures Kept(Outside, lines) == lines && After(Outside, lines) == Outside
  {
    if lines != [] {
      assert lines == Init(lines) + [Last(lines)];
      assert !Opens(Last(lines));
      assert NoneOpen(Init(lines));
      KeptAll(Init(lines));
    }
  }

  lemma {:induction false} KeptNoneOpen(m: Mode, lines: seq<string>)
    ensures NoneOpen(Kept(m, lines))
    ensures forall i :: 0 <= i < |Kept(m, lines)| ==> Kept(m, lines)[i] in lines
  {
    hide Opens, Next;
    if lines != [] {
      KeptNoneOpen(m, Init(lines));
      assert Last(lines) in lines;
      assert forall x :: x in Init(lines) ==> x in lines;
    }
  }

  lemma BlankIsPlain()
    ensures !Opens("") && Plain("")
  {
  }

  /* ---------- lines up to blank ones ---------- */

  function NonBlank(lines: seq<string>): seq<string> {
    if lines == [] then []
    else NonBlank(Init(lines)) + if Last(lines) == "" then [] else [Last(lines)]
  }

  lemma {:induction false} NonBlankConcat(a: seq<string>, b: seq<string>)
    ensures NonBlank(a + b) == NonBlank(a) + NonBlank(b)
  {
    if b == [] {
      assert a + b == a;
    } else {
      assert Init(a + b) == a + Init(b);
      NonBlankConcat(a, Init(b));
    }
  }

  lemma {:induction false} NonBlankBlanks(lines: seq<string>)
    requires forall i :: 0 <= i < |lines| ==> lines[i] == ""
    ensures NonBlank(lines) == []
  {
    if lines != [] {
      NonBlankBlanks(Init(lines));
    }
  }

  lemma NonBlankDrop(lines: seq<string>)
    ensures NonBlank(DropBlank(lines)) == NonBlank(lines)
  {
    var r := DropBlank(lines);
    assert lines == r + lines[|r|..];
    NonBlankConcat(r, lines[|r|..]);
    NonBlankBlanks(lines[|r|..]);
  }

  lemma {:induction false} NonBlankMember(lines: seq<string>, x: string)
    ensures x in NonBlank(lines) <==> x in lines && x != ""
  {
    if lines != [] {
      NonBlankMember(Init(lines), x);
      assert lines == Init(lines) + [Last(lines)];
    }
  }

  /* ---------- stripping ---------- */

  /** The lines of a stripped script, when the scan ran at all. */
  function StrippedLines(script: string): seq<string> {
    var d := DropBlank(Kept(Outside, Split(script)));
    if EndsLine(script) then (if d == [] then [""] else d) + [""]
    else if d == [] then [""] else d
  }

  lemma SurvivingLines(script: string)
    ensures var d := DropBlank(Kept(Outside, Split(script)));
      && NoneOpen(d)
      && (forall i :: 0 <= i < |d| ==> Plain(d[i]))
      && NonBlank(d) == NonBlank(Kept(Outside, Split(script)))
  {
    hide Opens, Split, Next, Plain;
    var k := Kept(Outside, Split(script));
    KeptNoneOpen(Outside, Split(script));
    SplitParts(script);
    NonBlankDrop(k);
    var d := DropBlank(k);
    forall i | 0 <= i < |d| ensures Plain(d[i]) {
      assert d[i] == k[i] && k[i] in Split(script);
    }
  }

  lemma StripLines(script: string)
    requires Mentions(script)
    ensures Split(Strip(script)) == StrippedLines(script)
    ensures NoneOpen(StrippedLines(script))
    ensures NonBlank(StrippedLines(script)) == NonBlank(Kept(Outside, Split(script)))
  {
    hide Opens, Mentions, Split, Join, Next, Plain, Kept, DropBlank, NonBlank;
    SurvivingLines(script);
    var d := DropBlank(Kept(Outside, Split(script)));
    BlankIsPlain();
    var l := if d == [] then [""] else d;
    NonBlankPadded(d);
    JoinPadded(d);
    SplitJoin(l);
    if EndsLine(script) {
      SplitAtNewline(Join(l), "");
      SplitPlain("");
      assert Join(l) + "\n" + "" == Join(l) + "\n";
      NonBlankConcat(l, [""]);
      NonBlankBlanks([""]);
    } else {
      assert Join(d) + "" == Join(d);
    }
  }

  lemma JoinPadded(d: seq<string>)
    ensures Join(if d == [] then [""] else d) == Join(d)
  {
  }

  lemma NonBlankPadded(d: seq<string>)
    ensures NonBlank(if d == [] then [""] else d) == NonBlank(d)
  {
    NonBlankBlanks([""]);
  }

  /** Stripping twice is stripping once. */
  lemma StripIdempotent(script: string)
    ensures Strip(Strip(script)) == Strip(script)
  {
    hide Opens, Mentions, Split, Join, Next;
    if Mentions(script) && Mentions(Strip(script)) {
      var once := Strip(script);
      StripLines(script);
      KeptAll(Split(once));
      var d := DropBlank(Kept(Outside, Split(script)));
      DropStripped(script);
      StripEnds(script);
    }
  }

  lemma DropStripped(script: string)
    ensures DropBlank(StrippedLines(script)) == DropBlank(Kept(Outside, Split(script)))
  {
    hide Opens, Split, Next, Kept;
    var d := DropBlank(Kept(Outside, Split(script)));
    if d == [] {
      assert DropBlank([""]) == [];
      assert Init([""] + [""]) == [""];
    } else {
      assert Init(d + [""]) == d;
      assert DropBlank(d) == d;
    }
  }

  /** Only the empty script can lose or gain its final newline. */
  lemma StripEnds(script: string)
    requires Mentions(script) && Mentions(Strip(script))
    ensures EndsLine(Strip(script)) == EndsLine(script)
  {
    hide Opens, Mentions, Split, Next, Kept, Join;
    var d := DropBlank(Kept(Outside, Split(script)));
    SplitParts(script);
    KeptNoneOpen(Outside, Split(script));
    if !EndsLine(script) {
      assert Strip(script) == Join(d);
      if d == [] {
        assert Join(d) == "" by { JoinNothing(); }
      } else {
        JoinLast(d);
        assert Last(d) in Split(script);
        assert Plain(Last(d));
      }
    }
  }

  lemma JoinNothing()
    ensures Join([]) == ""
  {
  }

  lemma {:induction false} JoinLast(d: seq<string>)
    requires d != [] && Last(d) != ""
    ensures Join(d) != "" && Last(Join(d)) == Last(Last(d))
  {
    if |d| > 1 {
      JoinLast(d[1..]);
      assert Last(d[1..]) == Last(d);
    }
  }

  lemma {:induction false} LastLine(s: string)
    ensures Last(Split(s)) == "" <==> s == "" || EndsLine(s)
    ensures EndsLine(s) ==> |Split(s)| > 1
  {
    if s != "" {
      var r := Split(s[1..]);
      LastLine(s[1..]);
      assert Split(s) == Prepend(s[0], r);
      hide Split;
      assert |s| > 1 ==> Last(s[1..]) == Last(s);
      assert Last(Prepend(s[0], r)) == if |r| == 1 && s[0] != '\n' then [s[0]] + r[0] else Last(r);
    }
  }

  /** The text ends in a blank line. */
  predicate EndsBlank(s: string) {
    |s| >= 2 && Last(s) == '\n' && Last(Init(s)) == '\n'
  }

  /** The lines of a text that has something in it, with at most one newline at its end. */
  lemma TidyEnd(s: string)
    requires exists i :: 0 <= i < |s| && s[i] != '\n'
    ensures DropBlank(Split(s)) + (if EndsLine(s) then [""] else []) == Split(s) <==> !EndsBlank(s)
  {
    hide Split, Join;
    var lines := Split(s);
    LastLine(s);
    if EndsLine(s) {
      var front := Init(lines);
      JoinSplit(s);
      assert lines == front + [""];
      JoinAppend(front, [""]);
      assert Join([""]) == "" by { JoinOne(""); }
      assert s == Join(front) + "\n";
      assert Init(s) == Join(front);
      assert DropBlank(lines) == DropBlank(front);
      SplitParts(s);
      SplitJoin(front);
      LastLine(Join(front));
    } else {
      assert DropBlank(lines) == lines;
      assert lines + [] == lines;
    }
  }

  lemma JoinOne(x: string)
    ensures Join([x]) == x
  {
  }

  lemma MentionsText(script: string)
    requires Mentions(script)
    ensures exists i :: 0 <= i < |script| && script[i] != '\n'
  {
    var p := if Contains(script, OPEN) then OPEN else FILE;
    var i :| 0 <= i <= |script| && OccursAt(script, p, i);
    assert script[i] == script[i..i + |p|][0] == p[0];
  }

  /**
   * A script comes back from stripping as it was exactly when it mentions neither marker, or has no
   * line that opens a block and does not end in a blank line.
   */
  lemma StripUnchangedExactly(script: string)
    ensures Strip(script) == script <==> !Mentions(script) || (NoneOpen(Split(script)) && !EndsBlank(script))
  {
    hide Opens, Mentions, Split, Join, Next, EndsBlank;
    if Mentions(script) {
      StripLines(script);
      JoinSplit(script);
      JoinSplit(Strip(script));
      if NoneOpen(Split(script)) {
        KeptAll(Split(script));
        MentionsText(script);
        TidyEnd(script);
        SomethingLeft(script);
        var d := DropBlank(Split(script));
        assert StrippedLines(script) == d + if EndsLine(script) then [""] else [];
      }
    }
  }

  lemma SomethingLeft(s: string)
    requires exists i :: 0 <= i < |s| && s[i] != '\n'
    ensures DropBlank(Split(s)) != []
  {
    hide Split, Join;
    JoinSplit(s);
    var lines := Split(s);
    var i :| 0 <= i < |s| && s[i] != '\n';
    assert s[i] in Join(lines);
    if DropBlank(lines) == [] {
      JoinBlanks(lines);
    }
  }

  lemma {:induction false} JoinBlanks(lines: seq<string>)
    requires forall i :: 0 <= i < |lines| ==> lines[i] == ""
    ensures forall c :: c in Join(lines) ==> c == '\n'
  {
    if |lines| > 1 {
      JoinBlanks(lines[1..]);
    }
  }
}
