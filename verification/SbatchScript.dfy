/**
 * A batch script through a whole submission and a resubmission: strip, inject, pin the output.
 */
module SbatchScript {
  import opened Text
  import opened SbatchPrelude
  import opened SbatchInject

  /* ---------- a line in its text ---------- */

  lemma {:induction false} JoinAround(lines: seq<string>, i: nat) returns (a: string, c: string)
    requires i < |lines|
    ensures Join(lines) == a + lines[i] + c && (a == "" || Last(a) == '\n')
  {
    if i == 0 {
      a := "";
      c := if |lines| == 1 then "" else "\n" + Join(lines[1..]);
    } else {
      var x, y := JoinAround(lines[1..], i - 1);
      a, c := lines[0] + "\n" + x, y;
      assert Join(lines) == lines[0] + "\n" + (x + lines[i] + y);
      assert lines[0] + "\n" + (x + lines[i] + y) == a + lines[i] + c;
      assert Last(lines[0] + "\n") == '\n';
    }
  }

  lemma LineMentions(script: string, i: nat)
    requires i < |Split(script)| && StartsWith(Split(script)[i], OPEN)
    ensures Mentions(script)
  {
    hide Split, Join;
    JoinSplit(script);
    var a, c := JoinAround(Split(script), i);
    var n := |a|;
    assert script[n..n + |OPEN|] == Split(script)[i][..|OPEN|];
    assert OccursAt(script, OPEN, n);
  }

  /* ---------- inject, then strip ---------- */

  lemma InjectedMentions(script: string, staged: bool, fragments: seq<Fragment>)
    requires fragments != [] && ValidFragments(fragments)
    ensures Mentions(Inject(script, Assemble(staged, fragments)))
  {
    hide Split, Inject, Assemble, Mentions, Skipped, SecretLines, FragmentLines, ValidFragments;
    var p := Assemble(staged, fragments);
    AssembledLines(staged, fragments);
    InjectSplit(script, p);
    var k, n := LeadingBlock(Split(script)), |SecretLines(staged)|;
    FragmentNotEmpty(fragments[0]);
    var lines := Split(Inject(script, p));
    assert AllLines(fragments)[0] == FragmentLines(fragments[0])[0];
    assert Split(p)[n] == AllLines(fragments)[0];
    assert lines[k + n] == Split(p)[n];
    assert OPEN <= lines[k + n];
    LineMentions(Inject(script, p), k + n);
  }

  lemma ScanAround(a: seq<string>, p: seq<string>, b: seq<string>)
    requires NoneOpen(a) && NoneOpen(b) && Passes(p)
    ensures NonBlank(Kept(Outside, a + (p + b))) == NonBlank(a) + NonBlank(b)
  {
    KeptAll(a);
    KeptAll(b);
    KeptConcat(Outside, a, p + b);
    KeptConcat(Outside, p, b);
    NonBlankBlanks(Kept(Outside, p));
    hide Kept, After, NonBlank, NoneOpen;
    NonBlankConcat(Kept(Outside, p), b);
    NonBlankConcat(a, Kept(Outside, p) + b);
    assert [] + NonBlank(b) == NonBlank(b);
  }

  lemma ScanInjected(lines: seq<string>, p: seq<string>)
    requires NoneOpen(lines) && Passes(p)
    ensures NonBlank(Kept(Outside, InjectLines(lines, p))) == NonBlank(lines)
  {
    hide Skipped, Opens, NonBlank, Kept, Passes;
    var k := LeadingBlock(lines);
    var a, b := lines[..k], lines[k..];
    assert lines == a + b;
    ScanAround(a, p, b);
    NonBlankConcat(a, b);
  }

  lemma SameNonBlankNoneOpen(x: seq<string>, y: seq<string>)
    requires NonBlank(x) == NonBlank(y) && NoneOpen(x)
    ensures NoneOpen(y)
  {
    hide Opens, NonBlank;
    BlankIsPlain();
    forall i | 0 <= i < |y| ensures !Opens(y[i]) {
      NonBlankMember(y, y[i]);
      NonBlankMember(x, y[i]);
    }
  }

  /**
   * Stripping an injected script gives the script's own lines back, blank ones aside, exactly when
   * none of those lines opens a block itself.
   */
  lemma StripUndoesInject(script: string, staged: bool, fragments: seq<Fragment>)
    requires fragments != [] && ValidFragments(fragments)
    ensures NonBlank(Split(Strip(Inject(script, Assemble(staged, fragments))))) == NonBlank(Split(script))
       <==> NoneOpen(Split(script))
  {
    hide Split, Inject, Assemble, Mentions, Passes, NoneOpen, NonBlank, Strip, StrippedLines, Kept, InjectLines,
      ValidFragments;
    var p := Assemble(staged, fragments);
    AssembledLines(staged, fragments);
    InjectSplit(script, p);
    InjectedMentions(script, staged, fragments);
    StripLines(Inject(script, p));
    if NoneOpen(Split(script)) {
      ScanInjected(Split(script), Split(p));
    } else if NonBlank(Split(Strip(Inject(script, p)))) == NonBlank(Split(script)) {
      SameNonBlankNoneOpen(Split(Strip(Inject(script, p))), Split(script));
    }
  }

  /** A line that ends the block of mode `m`. */
  predicate Closes(m: Mode, line: string) {
    m != Outside && Next(m, line) == Outside
  }

  /** What lies below the first line that ends the block of mode `m`; nothing, if no line does. */
  function BelowBlock(m: Mode, lines: seq<string>): seq<string> {
    if lines == [] then []
    else if Closes(m, lines[0]) then lines[1..]
    else BelowBlock(m, lines[1..])
  }

  lemma {:induction false} BelowBlockIs(m: Mode, lines: seq<string>, i: nat)
    requires i < |lines| && Closes(m, lines[i]) && forall k :: 0 <= k < i ==> !Closes(m, lines[k])
    ensures BelowBlock(m, lines) == lines[i + 1..]
  {
    hide Closes;
    if i > 0 {
      BelowBlockIs(m, lines[1..], i - 1);
      assert lines[1..][i..] == lines[i + 1..];
    }
  }

  lemma {:induction false} NoneBelow(m: Mode, lines: seq<string>)
    requires forall k :: 0 <= k < |lines| ==> !Closes(m, lines[k])
    ensures BelowBlock(m, lines) == []
  {
    hide Closes;
    if lines != [] {
      NoneBelow(m, lines[1..]);
    }
  }

  lemma StaysOrCloses(m: Mode, line: string)
    requires m != Outside
    ensures Next(m, line) == m || Closes(m, line)
    ensures After(m, [line]) == Next(m, line) && Kept(m, [line]) == []
  {
    assert Init([line]) == [];
  }

  /** Inside a block nothing is kept until it ends. */
  lemma {:induction false} KeptInside(m: Mode, lines: seq<string>)
    requires m != Outside
    ensures Kept(m, lines) == Kept(Outside, BelowBlock(m, lines))
  {
    hide Next, Kept, After, Closes;
    if lines == [] {
      KeptNothing(m);
      KeptNothing(Outside);
    } else {
      StaysOrCloses(m, lines[0]);
      assert lines == [lines[0]] + lines[1..];
      KeptConcat(m, [lines[0]], lines[1..]);
      if Closes(m, lines[0]) {
        ClosesMeans(m, lines[0]);
      } else {
        KeptInside(m, lines[1..]);
      }
    }
  }

  lemma ClosesMeans(m: Mode, line: string)
    requires Closes(m, line)
    ensures Next(m, line) == Outside
  {
  }

  lemma KeptNothing(m: Mode)
    ensures Kept(m, []) == []
  {
  }

  lemma HeaderAlone(header: string)
    requires Opens(header)
    ensures After(Outside, [header]) == Next(Outside, header) != Outside && Kept(Outside, [header]) == []
  {
    assert Init([header]) == [];
  }

  /** The lines kept around a block are those above its header and those a scan keeps below its end. */
  lemma KeptAroundBlock(above: seq<string>, header: string, below: seq<string>)
    requires NoneOpen(above) && Opens(header)
    ensures Kept(Outside, above + ([header] + below)) == above + Kept(Outside, BelowBlock(Next(Outside, header), below))
  {
    hide Opens, Kept, After, Next, BelowBlock;
    KeptAll(above);
    HeaderAlone(header);
    KeptInside(Next(Outside, header), below);
    KeptConcat(Outside, above, [header] + below);
    KeptConcat(Outside, [header], below);
  }

  /**
   * What becomes of a script at its first line that opens a block, of either kind. If the script
   * mentions a marker, the lines above stay, and of those below exactly what a scan keeps below the
   * block's end: a block that is never closed takes the rest of the script with it. A secrets header
   * in a script that mentions neither marker is left alone.
   */
  lemma FirstBlockExactly(above: seq<string>, header: string, below: seq<string>)
    requires PlainLines(above) && PlainLines(below) && Plain(header) && NoneOpen(above) && Opens(header)
    ensures var script := Join(above + ([header] + below));
      && (StartsWith(header, OPEN) ==> Mentions(script))
      && NonBlank(Split(Strip(script))) ==
           if Mentions(script) then NonBlank(above) + NonBlank(Kept(Outside, BelowBlock(Next(Outside, header), below)))
           else NonBlank(above + ([header] + below))
  {
    KeptAroundBlock(above, header, below);
    var lines := above + ([header] + below);
    assert lines[|above|] == header && |lines| > 0;
    assert forall i :: 0 <= i < |lines| ==> Plain(lines[i]);
    hide Split, Join, Plain, StartsWith, NonBlank, StrippedLines, Kept, Opens, Next, BelowBlock, Mentions;
    SplitJoin(lines);
    if StartsWith(header, OPEN) {
      LineMentions(Join(lines), |above|);
    }
    if Mentions(Join(lines)) {
      StripLines(Join(lines));
      NonBlankConcat(above, Kept(Outside, BelowBlock(Next(Outside, header), below)));
    }
  }

  /** In particular a block of either kind that no line below it ends takes the rest of the script with it. */
  lemma UnclosedBlockTakesTheRest(above: seq<string>, header: string, below: seq<string>)
    requires PlainLines(above) && PlainLines(below) && Plain(header) && NoneOpen(above) && Opens(header)
    requires Mentions(Join(above + ([header] + below)))
    requires forall i :: 0 <= i < |below| ==> !Closes(Next(Outside, header), below[i])
    ensures NonBlank(Split(Strip(Join(above + ([header] + below))))) == NonBlank(above)
  {
    hide Split, Join, Plain, StartsWith, NonBlank, Strip, Kept, Opens, Next, Mentions, Closes;
    FirstBlockExactly(above, header, below);
    NoneBelow(Next(Outside, header), below);
    KeptNothing(Outside);
    NonBlankBlanks([]);
  }

  /**
   * So something below the header survives exactly when a line below it ends the block and below
   * the first such line a scan keeps something.
   */
  lemma RestSurvivesExactly(above: seq<string>, header: string, below: seq<string>)
    requires PlainLines(above) && PlainLines(below) && Plain(header) && NoneOpen(above) && Opens(header)
    requires Mentions(Join(above + ([header] + below)))
    ensures NonBlank(Split(Strip(Join(above + ([header] + below))))) != NonBlank(above) <==>
      exists i | 0 <= i < |below| :: EndsBlock(Next(Outside, header), below, i)
        && NonBlank(Kept(Outside, below[i + 1..])) != []
  {
    FirstBlockExactly(above, header, below);
    var m := Next(Outside, header);
    hide Split, Join, Plain, StartsWith, NonBlank, Strip, Kept, Opens, Next, Mentions, Closes;
    if exists i :: 0 <= i < |below| && Closes(m, below[i]) {
      var i := FirstClose(m, below);
      BelowBlockIs(m, below, i);
      assert EndsBlock(m, below, i);
    } else {
      NoneBelow(m, below);
      KeptNothing(Outside);
      assert NonBlank([]) == [] by { NonBlankBlanks([]); }
    }
  }

  /**
   * The markers, spelled out: a prelude block runs from a line that begins like its header to the next
   * that begins like its end; the secrets block from a line about the staged credentials to the next
   * that begins by unsetting their variable; and a script that has neither header nor variable is not
   * looked at.
   */
  lemma MarkersExactly(line: string, script: string)
    ensures Next(Outside, line) == InPrelude <==> "# --- aura:" <= line
    ensures Next(Outside, line) == InSecrets <==>
      !("# --- aura:" <= line) && Contains(line, "Pull cluster-level " + "credentials staged in " + "a 0600 file")
    ensures Next(InPrelude, line) == (if "# --- end aura prelude ---" <= line then Outside else InPrelude)
    ensures Next(InSecrets, line) == (if "unset __AURA_SECRETS_FILE" <= line then Outside else InSecrets)
    ensures Mentions(script) <==> Contains(script, "# --- aura:") || Contains(script, "__AURA_SECRETS_FILE")
  {
    PullText();
    hide Contains;
  }

  lemma PullText()
    ensures PULL == "Pull cluster-level " + "credentials staged in " + "a 0600 file"
  {
  }

  /** The i-th line is the first to end the block. */
  predicate EndsBlock(m: Mode, lines: seq<string>, i: nat)
    requires i < |lines|
  {
    Closes(m, lines[i]) && forall k :: 0 <= k < i ==> !Closes(m, lines[k])
  }

  lemma {:induction false} FirstClose(m: Mode, lines: seq<string>) returns (i: nat)
    requires exists k :: 0 <= k < |lines| && Closes(m, lines[k])
    ensures i < |lines| && EndsBlock(m, lines, i)
  {
    hide Closes;
    if Closes(m, lines[0]) {
      i := 0;
    } else {
      var k :| 0 <= k < |lines| && Closes(m, lines[k]);
      assert Closes(m, lines[1..][k - 1]);
      var j := FirstClose(m, lines[1..]);
      i := j + 1;
      forall k | 0 <= k < i ensures !Closes(m, lines[k]) {
        if k > 0 {
          assert !Closes(m, lines[1..][k - 1]);
        }
      }
    }
  }

  /** `sbatch` reads the same directives with the prelude in as without it. */
  lemma PreludeKeepsDirectives(script: string, staged: bool, fragments: seq<Fragment>)
    requires fragments != [] && ValidFragments(fragments)
    ensures Directives(Split(Inject(script, Assemble(staged, fragments)))) == Directives(Split(script))
  {
    hide Split, Inject, Assemble, StartsWith, Passes;
    AssembledLines(staged, fragments);
    InjectKeepsDirectives(script, Assemble(staged, fragments));
  }

  /* ---------- injecting looks at nothing but the lines that are not blank ---------- */

  lemma NonBlankAll(lines: seq<string>)
    ensures forall i :: 0 <= i < |NonBlank(lines)| ==> NonBlank(lines)[i] in lines
  {
    forall i | 0 <= i < |NonBlank(lines)| ensures NonBlank(lines)[i] in lines {
      NonBlankMember(lines, NonBlank(lines)[i]);
    }
  }

  lemma BlankIsSkipped()
    ensures Skipped("")
  {
  }

  lemma InjectNonBlank(lines: seq<string>, p: seq<string>)
    ensures NonBlank(InjectLines(lines, p)) == InjectLines(NonBlank(lines), NonBlank(p))
  {
    hide Skipped, NonBlank;
    var k := LeadingBlock(lines);
    var a, b := lines[..k], lines[k..];
    assert lines == a + b;
    NonBlankConcat(a, b);
    NonBlankConcat(p, b);
    NonBlankConcat(a, p + b);
    NonBlankAll(a);
    var na, nb := NonBlank(a), NonBlank(b);
    BlankIsSkipped();
    if b != [] {
      assert b == [b[0]] + b[1..];
      NonBlankConcat([b[0]], b[1..]);
      assert NonBlank([b[0]]) == [b[0]] by { NonBlankOne(b[0]); }
      assert nb[0] == b[0];
    } else {
      assert nb == [] by { NonBlankBlanks(b); }
    }
    assert forall i :: 0 <= i < |na| ==> (na + nb)[i] == na[i] && na[i] in a;
    LeadingBlockIs(na + nb, |na|);
    assert (na + nb)[..|na|] == na && (na + nb)[|na|..] == nb;
  }

  lemma NonBlankOne(x: string)
    requires x != ""
    ensures NonBlank([x]) == [x]
  {
    assert Init([x]) == [];
  }

  /**
   * Resubmitting: stripping the old prelude and injecting a new one gives what injecting the new one
   * into the original script would have given, blank lines aside.
   */
  lemma ResubmissionReplacesPrelude(script: string, staged: bool, old1: seq<Fragment>, staged2: bool,
                                    new1: seq<Fragment>)
    requires old1 != [] && ValidFragments(old1) && NoneOpen(Split(script))
    ensures var first := Inject(script, Assemble(staged, old1));
      var again := Inject(Strip(first), Assemble(staged2, new1));
      NonBlank(Split(again)) == NonBlank(Split(Inject(script, Assemble(staged2, new1))))
  {
    hide Split, Inject, Assemble, NonBlank, Strip, NoneOpen, ValidFragments, InjectLines;
    var first, p := Inject(script, Assemble(staged, old1)), Assemble(staged2, new1);
    StripUndoesInject(script, staged, old1);
    InjectSplit(Strip(first), p);
    InjectSplit(script, p);
    InjectNonBlank(Split(Strip(first)), Split(p));
    InjectNonBlank(Split(script), Split(p));
  }

  /* ---------- pinning the output file ---------- */

  /** `[=\s]` at position `n`. */
  predicate Ends(r: string, n: nat) {
    |r| > n && (r[n] == '=' || IsSpace(r[n]))
  }

  /** The text from here on opens with an output directive. */
  predicate OutputOption(t: string) {
    StartsWith(t, SBATCH) &&
    var rest := t[|SBATCH|..];
    var r := TrimStart(rest);
    |r| < |rest| && ((StartsWith(r, "--output") && Ends(r, 8)) || (StartsWith(r, "-o") && Ends(r, 2)))
  }

  /** What `^` matches in multiline mode. */
  predicate LineStart(s: string, i: int) {
    i == 0
    || (0 < i <= |s|
        && (s[i - 1] == '\n' || s[i - 1] == '\r' || s[i - 1] == '\U{2028}' || s[i - 1] == '\U{2029}'))
  }

  predicate HasOutput(s: string) {
    exists i | 0 <= i <= |s| :: LineStart(s, i) && OutputOption(s[i..])
  }

  function Directive(dir: string): string {
    SBATCH + (" " + ("--output" + ("=" + (dir + "/slurm-%j.out"))))
  }

  function PinLines(lines: seq<string>, d: string): seq<string>
    requires lines != []
  {
    if StartsWith(lines[0], "#!") then [lines[0], d] + lines[1..] else [d] + lines
  }

  function PinText(script: string, dir: string): string {
    Join(PinLines(Split(script), Directive(dir)))
  }

  /** The script as it is stored: pinned unless it already names an output file. */
  function Pin(script: string, dir: string): string {
    if HasOutput(script) then script else PinText(script, dir)
  }

  method PinOutput(script: string, submitDir: string) returns (r: string)
    ensures r == Pin(script, submitDir)
  {
    hide HasOutput;
    r := script;
    if !HasOutput(script) {
      var lines := Split(script);
      var shebangIdx := if StartsWith(lines[0], "#!") then 0 else -1;
      var at := shebangIdx + 1;
      assert lines[..at] + [Directive(submitDir)] + lines[at..] == PinLines(lines, Directive(submitDir)) by {
        assert at == 0 ==> lines[..at] == [] && lines[at..] == lines;
        assert at == 1 ==> lines[..at] == [lines[0]];
      }
      lines := lines[..at] + [Directive(submitDir)] + lines[at..];
      r := Join(lines);
    }
  }

  lemma DirectiveIsOption(dir: string, more: string)
    ensures OutputOption(Directive(dir) + more)
  {
    var t := Directive(dir) + more;
    var tail := "=" + (dir + "/slurm-%j.out") + more;
    var r := "--output" + tail;
    var rest := " " + r;
    assert t == SBATCH + rest;
    assert t[|SBATCH|..] == rest;
    assert rest[1..] == r && r[0] == '-' && rest[0] == ' ';
    assert TrimStart(rest) == TrimStart(r) == r;
    assert r[8] == tail[0] == '=';
  }

  /** A line of the text that is one of our directives is found by the test. */
  lemma DirectiveIsFound(script: string, i: nat, dir: string)
    requires i < |Split(script)| && Split(script)[i] == Directive(dir)
    ensures HasOutput(script)
  {
    hide Split, Join, OutputOption, Directive;
    JoinSplit(script);
    var a, c := JoinAround(Split(script), i);
    var n := |a|;
    assert script == a + (Directive(dir) + c);
    assert script[n..] == Directive(dir) + c;
    DirectiveIsOption(dir, c);
    assert a != "" ==> script[n - 1] == Last(a);
    assert LineStart(script, n);
  }

  lemma JoinAroundPiece(lines: seq<string>, i: nat, dir: string)
    requires i < |lines| && lines[i] == Directive(dir)
    ensures HasOutput(Join(lines))
  {
    hide Join, OutputOption, Directive;
    var a, c := JoinAround(lines, i);
    var n := |a|;
    var script := Join(lines);
    assert script == a + (Directive(dir) + c);
    assert script[n..] == Directive(dir) + c;
    DirectiveIsOption(dir, c);
    assert a != "" ==> script[n - 1] == Last(a);
    assert LineStart(script, n);
  }

  /** Every stored script names an output file, so pinning again changes nothing. */
  lemma PinOnce(script: string, dir: string, dir2: string)
    ensures HasOutput(Pin(script, dir)) && Pin(Pin(script, dir), dir2) == Pin(script, dir)
  {
    hide HasOutput, Split, Join, Directive;
    if !HasOutput(script) {
      var lines := PinLines(Split(script), Directive(dir));
      JoinAroundPiece(lines, if StartsWith(Split(script)[0], "#!") then 1 else 0, dir);
    }
  }

  lemma DirectivePlain(dir: string)
    requires Plain(dir)
    ensures Plain(Directive(dir)) && StartsWith(Directive(dir), SBATCH) && !IsCommand(Directive(dir))
      && Skipped(Directive(dir))
  {
    assert Plain(SBATCH) && Plain("--output") && Plain("=") && Plain("/slurm-%j.out");
    assert Directive(dir)[0] == SBATCH[0] == '#';
    HashIsSkipped(Directive(dir));
  }

  lemma PinSplit(script: string, dir: string)
    requires Plain(dir)
    ensures Split(PinText(script, dir)) == PinLines(Split(script), Directive(dir))
  {
    hide Split, Join, Directive, StartsWith, IsCommand, Skipped;
    SplitParts(script);
    DirectivePlain(dir);
    SplitJoin(PinLines(Split(script), Directive(dir)));
  }

  lemma ShebangNoDirective(line: string)
    requires StartsWith(line, "#!")
    ensures !IsCommand(line) && !StartsWith(line, SBATCH)
  {
    assert line[0] == "#!"[0] && line[1] == "#!"[1];
    NotPrefix(line, SBATCH, 1);
  }

  /** Pinning puts exactly one directive in front of those that `sbatch` reads and leaves the rest. */
  lemma PinAddsOneDirective(script: string, dir: string)
    requires Plain(dir)
    ensures Directives(Split(Pin(script, dir)))
         == (if HasOutput(script) then [] else [Directive(dir)]) + Directives(Split(script))
  {
    hide HasOutput, Split, Directive, IsCommand, Skipped;
    if !HasOutput(script) {
      PinSplit(script, dir);
      DirectivePlain(dir);
      var lines, d := Split(script), Directive(dir);
      var pinned := PinLines(lines, d);
      if StartsWith(lines[0], "#!") {
        ShebangNoDirective(lines[0]);
        assert pinned[1..] == [d] + lines[1..];
        assert pinned[1..][1..] == lines[1..];
        assert Directives(pinned) == Directives(pinned[1..]);
      } else {
        assert pinned[1..] == lines;
      }
    }
  }

  /**
   * Where the pinned line goes: at the top, but below a shebang, which stays the first line. It names
   * the file in the directory, and without it the lines are the script's own.
   */
  lemma PinnedWhere(script: string, dir: string)
    requires Plain(dir) && !HasOutput(script)
    ensures var was, now := Split(script), Split(Pin(script, dir));
      var at := if "#!" <= was[0] then 1 else 0;
      && |now| == |was| + 1
      && now[at] == "#SBATCH" + " " + "--output" + "=" + dir + "/slurm-%j.out"
      && now[..at] + now[at + 1..] == was
  {
    hide HasOutput, Split;
    PinSplit(script, dir);
    var was, now := Split(script), Split(Pin(script, dir));
    DirectiveText(dir);
    hide Directive;
    if "#!" <= was[0] {
      assert now == [was[0], Directive(dir)] + was[1..];
      assert now[..1] + now[2..] == was;
    } else {
      assert now == [Directive(dir)] + was;
      assert now[..0] + now[1..] == was;
    }
  }

  lemma DirectiveText(dir: string)
    ensures Directive(dir) == "#SBATCH" + " " + "--output" + "=" + dir + "/slurm-%j.out"
  {
    assert SBATCH + (" " + ("--output" + ("=" + (dir + "/slurm-%j.out"))))
        == SBATCH + " " + "--output" + "=" + dir + "/slurm-%j.out";
  }

  /** A script that begins with a shebang begins with it when it is stored, prelude and pin included. */
  lemma ShebangStays(script: string, prelude: string, dir: string)
    requires "#!" <= Split(script)[0] && Plain(dir)
    ensures Split(Pin(script, dir))[0] == Split(script)[0]
    ensures Split(Pin(Inject(script, prelude), dir))[0] == Split(script)[0]
  {
    hide Split, Inject, HasOutput, Directive, Pin;
    PinKeepsShebang(script, dir);
    var top, rest := InjectWhere(script, prelude);
    PinKeepsShebang(Inject(script, prelude), dir);
  }

  lemma PinKeepsShebang(script: string, dir: string)
    requires "#!" <= Split(script)[0] && Plain(dir)
    ensures Split(Pin(script, dir))[0] == Split(script)[0]
  {
    hide Split, HasOutput;
    if !HasOutput(script) {
      PinnedWhere(script, dir);
      var was, now := Split(script), Split(Pin(script, dir));
      assert (now[..1] + now[2..])[0] == now[0];
    }
  }

  lemma {:induction false} TrimStartPast(blanks: string, rest: string)
    requires Blank(blanks)
    requires rest != "" && !IsSpace(rest[0])
    ensures TrimStart(blanks + rest) == rest
  {
    if blanks == "" {
      assert blanks + rest == rest;
    } else {
      assert (blanks + rest)[1..] == blanks[1..] + rest;
      TrimStartPast(blanks[1..], rest);
    }
  }

  /** An output option: either spelling, behind blanks, with a blank or `=` after it. */
  predicate IsOption(t: string, blanks: string, name: string, rest: string) {
    && t == "#SBATCH" + blanks + name + rest && blanks != "" && Blank(blanks)
    && (name == "--output" || name == "-o") && rest != "" && (rest[0] == '=' || IsSpace(rest[0]))
  }

  /** What is left of the text when its blanks are gone starts with one of the two names. */
  lemma OptionName(t: string) returns (name: string, rest: string)
    requires OutputOption(t)
    ensures |SBATCH| <= |t| && t == SBATCH + t[|SBATCH|..] && TrimStart(t[|SBATCH|..]) == name + rest
    ensures |name + rest| < |t| - |SBATCH|
    ensures (name == "--output" || name == "-o") && rest != "" && (rest[0] == '=' || IsSpace(rest[0]))
  {
    var r := TrimStart(t[|SBATCH|..]);
    hide TrimStart, IsSpace;
    name := if StartsWith(r, "--output") && Ends(r, 8) then "--output" else "-o";
    rest := r[|name|..];
    assert r == name + rest && rest[0] == r[|name|];
  }

  lemma OptionRead(t: string) returns (blanks: string, name: string, rest: string)
    requires OutputOption(t)
    ensures IsOption(t, blanks, name, rest)
  {
    name, rest := OptionName(t);
    var tail := t[|SBATCH|..];
    blanks := TrimStartIs(tail);
    hide TrimStart, IsSpace, OutputOption, Blank;
    FourParts(SBATCH, blanks, name, rest);
    assert blanks != "" by {
      assert |tail| == |blanks| + |name + rest|;
    }
  }

  lemma FourParts(a: string, b: string, c: string, d: string)
    ensures a + (b + (c + d)) == a + b + c + d
  {
  }

  lemma OptionFound(t: string, blanks: string, name: string, rest: string)
    requires IsOption(t, blanks, name, rest)
    ensures OutputOption(t)
  {
    hide TrimStart, IsSpace;
    var r := name + rest;
    assert t == SBATCH + (blanks + r);
    assert t[|SBATCH|..] == blanks + r;
    assert r[0] == '-' && !IsSpace('-') by { DashIsNoSpace(); }
    TrimStartPast(blanks, r);
    assert r[..|name|] == name && r[|name|] == rest[0];
  }

  lemma DashIsNoSpace()
    ensures !IsSpace('-')
  {
  }

  /** The test for an output option recognises exactly these. */
  lemma OutputOptionExactly(t: string)
    ensures OutputOption(t) <==> exists blanks, name, rest :: IsOption(t, blanks, name, rest)
  {
    hide OutputOption, IsOption;
    if OutputOption(t) {
      var blanks, name, rest := OptionRead(t);
    }
    if blanks, name, rest :| IsOption(t, blanks, name, rest) {
      OptionFound(t, blanks, name, rest);
    }
  }

  /** Among the directives `sbatch` reads there is one that names an output file. */
  predicate ReadsOutput(lines: seq<string>) {
    exists i | 0 <= i < |Directives(lines)| :: OutputOption(Directives(lines)[i])
  }

  /**
   * A stored script tells `sbatch` an output file exactly when nothing in it looked like an output
   * directive, so that it was pinned, or one of the directives `sbatch` reads is one already.
   */
  lemma OutputIsReadExactly(script: string, dir: string)
    requires Plain(dir)
    ensures ReadsOutput(Split(Pin(script, dir))) <==> !HasOutput(script) || ReadsOutput(Split(script))
  {
    hide Split, Directives, HasOutput, OutputOption, Directive;
    PinAddsOneDirective(script, dir);
    DirectiveIsOption(dir, "");
    assert Directive(dir) + "" == Directive(dir);
    if HasOutput(script) {
      assert [] + Directives(Split(script)) == Directives(Split(script));
    } else {
      assert Directives(Split(Pin(script, dir)))[0] == Directive(dir);
    }
  }

  /**
   * An output directive below the first command counts as naming an output file, although `sbatch`
   * does not read it: such a script is submitted without one.
   */
  lemma OutputBelowCommandStopsPinning(command: string, dir: string)
    requires Plain(command) && Plain(dir) && IsCommand(command)
    ensures var script := Join([command, Directive(dir)]);
      Pin(script, dir) == script && Directives(Split(script)) == []
  {
    hide Split, Join, Directive, IsCommand, HasOutput;
    DirectivePlain(dir);
    SplitJoin([command, Directive(dir)]);
    DirectiveIsFound(Join([command, Directive(dir)]), 1, dir);
  }

  /* ---------- pinning and injecting together ---------- */

  lemma PinInject(lines: seq<string>, p: seq<string>, d: string)
    requires lines != [] && p != [] && !StartsWith(p[0], "#!") && Skipped(d)
    ensures PinLines(InjectLines(lines, p), d) == InjectLines(PinLines(lines, d), p)
  {
    hide Skipped;
    if StartsWith(lines[0], "#!") {
      ShebangIsSkipped(lines[0]);
      PinInjectBelow(lines, p, d);
    } else {
      PinInjectOnTop(lines, p, d);
    }
  }

  lemma PinInjectBelow(lines: seq<string>, p: seq<string>, d: string)
    requires lines != [] && Skipped(lines[0]) && Skipped(d)
    ensures var x := InjectLines(lines, p);
      x != [] && x[0] == lines[0] && [x[0], d] + x[1..] == InjectLines([lines[0], d] + lines[1..], p)
  {
    hide Skipped;
    var k := LeadingBlock(lines);
    var pinned := [lines[0], d] + lines[1..];
    LeadingBlockSkips(pinned);
    LeadingBlockSkips(pinned[1..]);
    LeadingBlockSkips(lines);
    assert pinned[1..][1..] == lines[1..];
    assert LeadingBlock(pinned) == k + 1;
    hide LeadingBlock;
    assert pinned[..k + 1] == [lines[0], d] + lines[1..k];
    assert pinned[k + 1..] == lines[k..];
    assert InjectLines(lines, p) == lines[..k] + (p + lines[k..]);
    assert lines[..k] == [lines[0]] + lines[1..k];
    assert InjectLines(lines, p)[1..] == lines[1..k] + (p + lines[k..]);
  }

  lemma PinInjectOnTop(lines: seq<string>, p: seq<string>, d: string)
    requires lines != [] && p != [] && Skipped(d)
    ensures var x := InjectLines(lines, p);
      x != [] && (x[0] == lines[0] || x[0] == p[0]) && [d] + x == InjectLines([d] + lines, p)
  {
    hide Skipped;
    var k := LeadingBlock(lines);
    var pinned := [d] + lines;
    LeadingBlockSkips(pinned);
    assert pinned[1..] == lines;
    assert LeadingBlock(pinned) == k + 1;
    hide LeadingBlock;
    assert pinned[..k + 1] == [d] + lines[..k];
    assert pinned[k + 1..] == lines[k..];
    assert InjectLines(lines, p) == lines[..k] + (p + lines[k..]);
  }

  lemma LeadingBlockSkips(lines: seq<string>)
    requires lines != [] && Skipped(lines[0])
    ensures LeadingBlock(lines) == 1 + LeadingBlock(lines[1..])
  {
  }

  lemma AssembledStart(staged: bool, fragments: seq<Fragment>)
    requires fragments != [] && ValidFragments(fragments)
    ensures !StartsWith(Split(Assemble(staged, fragments))[0], "#!")
  {
    hide Split, Assemble, Passes, NoDirective;
    AssembledLines(staged, fragments);
    var first := Split(Assemble(staged, fragments))[0];
    if staged {
      assert first == PULL_LINE;
    } else {
      FragmentNotEmpty(fragments[0]);
      assert first == AllLines(fragments)[0] == OPEN + fragments[0].title;
    }
    assert first[1] == ' ';
    NotPrefix(first, "#!", 1);
  }

  lemma DirectiveDoesNotOpen(dir: string)
    requires !Contains(Directive(dir), PULL)
    ensures !Opens(Directive(dir))
  {
    assert Directive(dir)[1] == SBATCH[1] == 'S';
    NotPrefix(Directive(dir), OPEN, 1);
  }

  /**
   * A script pinned on its first submission is not pinned again: stripped and submitted with a new
   * prelude and another directory, it is the original with the first directive and the new prelude.
   */
  lemma ResubmissionKeepsPin(script: string, staged: bool, old1: seq<Fragment>, dir: string,
      staged2: bool, new1: seq<Fragment>, dir2: string)
    requires old1 != [] && ValidFragments(old1) && NoneOpen(Split(script))
    requires Plain(dir) && !Contains(Directive(dir), PULL)
    requires !HasOutput(Inject(script, Assemble(staged, old1)))
    ensures var stored := Pin(Inject(script, Assemble(staged, old1)), dir);
      var again := Pin(Inject(Strip(stored), Assemble(staged2, new1)), dir2);
      NonBlank(Split(again)) == NonBlank(Split(Inject(PinText(script, dir), Assemble(staged2, new1))))
  {
    hide Split, Join, Inject, Assemble, NonBlank, Strip, NoneOpen, ValidFragments, InjectLines, HasOutput, Directive,
      Contains, PinLines, PinText, Skipped, Plain, Opens, IsCommand, StartsWith;
    var p1, p2 := Assemble(staged, old1), Assemble(staged2, new1);
    var pinned := PinText(script, dir);
    PinThenInject(script, staged, old1, dir);
    var stored := Pin(Inject(script, p1), dir);
    assert stored == Inject(pinned, p1);
    PinnedNoneOpen(script, dir);
    ResubmissionReplacesPrelude(pinned, staged, old1, staged2, new1);
    var again := Inject(Strip(stored), p2);
    PinSurvives(script, dir, p2);
    NonBlankMember(Split(again), Directive(dir));
    NonBlankMember(Split(Inject(pinned, p2)), Directive(dir));
    var i :| 0 <= i < |Split(again)| && Split(again)[i] == Directive(dir);
    DirectiveIsFound(again, i, dir);
  }

  /** Pinning after injecting is injecting after pinning. */
  lemma PinThenInject(script: string, staged: bool, fragments: seq<Fragment>, dir: string)
    requires fragments != [] && ValidFragments(fragments) && Plain(dir)
    ensures PinText(Inject(script, Assemble(staged, fragments)), dir) ==
      Inject(PinText(script, dir), Assemble(staged, fragments))
  {
    hide Split, Inject, Assemble, ValidFragments, InjectLines, Directive, PinLines, PinText, Skipped, Plain,
      IsCommand, StartsWith;
    var p := Assemble(staged, fragments);
    AssembledStart(staged, fragments);
    DirectivePlain(dir);
    PinInject(Split(script), Split(p), Directive(dir));
    PinSplit(script, dir);
    PinSplit(Inject(script, p), dir);
    InjectSplit(script, p);
    InjectSplit(PinText(script, dir), p);
    JoinSplit(PinText(Inject(script, p), dir));
    JoinSplit(Inject(PinText(script, dir), p));
  }

  lemma PinnedNoneOpen(script: string, dir: string)
    requires NoneOpen(Split(script)) && Plain(dir) && !Contains(Directive(dir), PULL)
    ensures NoneOpen(Split(PinText(script, dir)))
  {
    hide Split, Directive, Contains, StartsWith, PinText, Opens;
    DirectiveDoesNotOpen(dir);
    PinSplit(script, dir);
    var lines := Split(script);
    assert forall x :: x in PinLines(lines, Directive(dir)) ==> x == Directive(dir) || x in lines;
  }

  lemma PinSurvives(script: string, dir: string, p: string)
    requires Plain(dir)
    ensures Directive(dir) in Split(Inject(PinText(script, dir), p)) && Directive(dir) != ""
  {
    hide Split, Inject, PinText, Directive, Skipped, IsCommand;
    DirectivePlain(dir);
    PinSplit(script, dir);
    InjectSplit(PinText(script, dir), p);
    var lines := Split(PinText(script, dir));
    var k := LeadingBlock(lines);
    assert Directive(dir) in lines;
    assert lines == lines[..k] + lines[k..];
    assert Directive(dir) != "" by { DirectiveLong(dir); }
  }

  lemma DirectiveLong(dir: string)
    ensures Directive(dir) != ""
  {
  }
}
