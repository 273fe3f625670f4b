/**
 * Putting Aura's blocks into a batch script: where they go, what `sbatch` still reads, what a later
 * resubmission makes of them, and the `--output` directive pinned on top.
 */
module SbatchInject {
  import opened Text
  import opened SbatchPrelude

  /* ---------- inserting after the leading comment block ---------- */

  /** Blank, or a comment, once trimmed. */
  predicate Skipped(line: string) {
    var t := Trim(line);
    t == "" || StartsWith(t, "#")
  }

  function LeadingBlock(lines: seq<string>): (k: nat)
    ensures k <= |lines|
    ensures forall i :: 0 <= i < k ==> Skipped(lines[i])
    ensures k < |lines| ==> !Skipped(lines[k])
  {
    if lines == [] || !Skipped(lines[0]) then 0 else 1 + LeadingBlock(lines[1..])
  }

  lemma LeadingBlockIs(lines: seq<string>, k: nat)
    requires k <= |lines|
    requires forall i :: 0 <= i < k ==> Skipped(lines[i])
    requires k < |lines| ==> !Skipped(lines[k])
    ensures LeadingBlock(lines) == k
  {
    hide Skipped;
    var l := LeadingBlock(lines);
  }

  /** What `injectPrelude` returns. */
  function Inject(script: string, prelude: string): string {
    var lines := Split(script);
    var k := LeadingBlock(lines);
    Join(lines[..k] + ([prelude] + lines[k..]))
  }

  method InjectPrelude(script: string, prelude: string) returns (r: string)
    ensures r == Inject(script, prelude)
  {
    hide Skipped;
    var lines := Split(script);
    var insertAt := 0;
    if |lines| > 0 && StartsWith(lines[0], "#!") {
      ShebangIsSkipped(lines[0]);
      insertAt := 1;
    }
    while insertAt < |lines|
      invariant insertAt <= |lines|
      invariant forall i :: 0 <= i < insertAt ==> Skipped(lines[i])
      invariant insertAt <= LeadingBlock(lines)
    {
      var t := Trim(lines[insertAt]);
      assert Skipped(lines[insertAt]) == (t == "" || StartsWith(t, "#")) by { SkippedIs(lines[insertAt]); }
      if t == "" || StartsWith(t, "#") {
        insertAt := insertAt + 1;
        continue;
      }
      break;
    }
    LeadingBlockIs(lines, insertAt);
    r := Join(lines[..insertAt] + ([prelude] + lines[insertAt..]));
  }

  lemma SkippedIs(line: string)
    ensures Skipped(line) <==> Trim(line) == "" || StartsWith(Trim(line), "#")
  {
  }

  lemma HashIsSkipped(line: string)
    requires line != "" && line[0] == '#'
    ensures Skipped(line)
  {
    var t := Trim(line);
    assert '#' in line && !IsSpace('#');
    assert t != "" && t[0] == '#';
    assert "#" <= t;
  }

  lemma ShebangIsSkipped(line: string)
    requires StartsWith(line, "#!")
    ensures Skipped(line)
  {
    assert line[0] == "#!"[0];
    HashIsSkipped(line);
  }

  function InjectLines(lines: seq<string>, p: seq<string>): seq<string> {
    var k := LeadingBlock(lines);
    lines[..k] + (p + lines[k..])
  }

  /** The injected script holds every line of the script in order, with the prelude's lines between. */
  lemma InjectSplit(script: string, prelude: string)
    ensures Split(Inject(script, prelude)) == InjectLines(Split(script), Split(prelude))
  {
    hide Split, Join, Plain, LeadingBlock;
    SplitParts(script);
    var lines := Split(script);
    var k := LeadingBlock(lines);
    SplitJoinAny(lines[..k], prelude, lines[k..]);
  }

  /**
   * Where the prelude goes: behind the longest run of blank lines and comments at the top, so below a
   * shebang and in front of every command; all of the script's lines are there, in order.
   */
  lemma InjectWhere(script: string, prelude: string) returns (top: seq<string>, rest: seq<string>)
    ensures Split(script) == top + rest && Split(Inject(script, prelude)) == top + Split(prelude) + rest
    ensures forall i :: 0 <= i < |top| ==> Trim(top[i]) == "" || Trim(top[i])[0] == '#'
    ensures rest != [] ==> Trim(rest[0]) != "" && Trim(rest[0])[0] != '#'
    ensures "#!" <= Split(script)[0] ==> top != [] && Split(Inject(script, prelude))[0] == Split(script)[0]
  {
    InjectSplit(script, prelude);
    SplitParts(script);
    hide Split, Inject, Trim;
    var lines := Split(script);
    var k := LeadingBlock(lines);
    top, rest := lines[..k], lines[k..];
    assert top + Split(prelude) + rest == InjectLines(lines, Split(prelude));
    if "#!" <= lines[0] {
      ShebangIsSkipped(lines[0]);
      assert k > 0;
    }
    forall i | 0 <= i < |top| ensures Trim(top[i]) == "" || Trim(top[i])[0] == '#' {
      SkippedExactly(top[i]);
    }
    if rest != [] {
      SkippedExactly(rest[0]);
    }
  }

  lemma SkippedExactly(line: string)
    ensures Skipped(line) <==> Trim(line) == "" || Trim(line)[0] == '#'
  {
    var t := Trim(line);
    assert t != "" && t[0] == '#' ==> t == "#" + t[1..];
  }

  /* ---------- what sbatch reads ---------- */

  /** White space in the C locale. */
  predicate IsBlankByte(c: char) {
    '\t' <= c <= '\r' || c == ' '
  }

  function SkipBlanks(line: string): string {
    if line != "" && IsBlankByte(line[0]) then SkipBlanks(line[1..]) else line
  }

  /** The first line of this kind ends the part of a script that is searched for directives. */
  predicate IsCommand(line: string) {
    var r := SkipBlanks(line);
    r != "" && r[0] != '#'
  }

  function Directives(lines: seq<string>): seq<string> {
    if lines == [] || IsCommand(lines[0]) then []
    else (if StartsWith(lines[0], SBATCH) then [lines[0]] else []) + Directives(lines[1..])
  }

  lemma {:induction false} TrimmedCommand(line: string)
    requires TrimStart(line) != "" && TrimStart(line)[0] != '#'
    ensures IsCommand(line)
  {
    if IsBlankByte(line[0]) {
      TrimmedCommand(line[1..]);
    }
  }

  lemma UnskippedIsCommand(line: string)
    requires !Skipped(line)
    ensures IsCommand(line)
  {
    var x := TrimStart(line);
    var t := Trim(line);
    assert t <= x && t != "" && t[0] == x[0];
    assert x[0] == '#' ==> "#" <= t;
    TrimmedCommand(line);
  }

  /** Lines that hold no directive add none and can only end the search. */
  lemma {:induction false} DirectivesPast(p: seq<string>, b: seq<string>)
    requires forall i :: 0 <= i < |p| ==> !StartsWith(p[i], SBATCH)
    requires b == [] || IsCommand(b[0])
    ensures Directives(p + b) == []
  {
    hide IsCommand;
    if p == [] {
      assert p + b == b;
    } else {
      assert (p + b)[1..] == p[1..] + b;
      DirectivesPast(p[1..], b);
    }
  }

  lemma {:induction false} DirectivesPrefix(a: seq<string>, b: seq<string>, c: seq<string>)
    requires Directives(b) == Directives(c)
    ensures Directives(a + b) == Directives(a + c)
  {
    hide IsCommand;
    if a == [] {
      assert a + b == b && a + c == c;
    } else {
      assert (a + b)[1..] == a[1..] + b && (a + c)[1..] == a[1..] + c;
      DirectivesPrefix(a[1..], b, c);
    }
  }

  /** Whatever is injected, so long as it holds no directive itself, `sbatch` reads the same directives. */
  lemma InjectKeepsDirectives(script: string, prelude: string)
    requires forall i :: 0 <= i < |Split(prelude)| ==> !StartsWith(Split(prelude)[i], SBATCH)
    ensures Directives(Split(Inject(script, prelude))) == Directives(Split(script))
  {
    hide Split, Inject, Skipped, IsCommand, StartsWith;
    InjectSplit(script, prelude);
    var lines := Split(script);
    var k := LeadingBlock(lines);
    var a, b, p := lines[..k], lines[k..], Split(prelude);
    assert lines == a + b;
    if b != [] {
      UnskippedIsCommand(b[0]);
    }
    DirectivesPast(p, b);
    DirectivesPast([], b);
    assert [] + b == b;
    DirectivesPrefix(a, p + b, b);
  }

  /* ---------- the prelude ---------- */

  /** An integration's block: a header, its commands, the closing line and a blank one. */
  datatype Fragment = Fragment(title: string, body: seq<string>)

  function FragmentLines(f: Fragment): seq<string> {
    [OPEN + f.title] + f.body + [CLOSE, ""]
  }

  predicate BodyLine(line: string) {
    Plain(line) && !StartsWith(line, CLOSE) && !StartsWith(line, SBATCH)
  }

  predicate ValidFragment(f: Fragment) {
    Plain(f.title) && forall i :: 0 <= i < |f.body| ==> BodyLine(f.body[i])
  }

  predicate ValidFragments(fragments: seq<Fragment>) {
    forall i :: 0 <= i < |fragments| ==> ValidFragment(fragments[i])
  }

  function Texts(fragments: seq<Fragment>): (r: seq<string>)
    ensures |r| == |fragments|
  {
    if fragments == [] then [] else [Join(FragmentLines(fragments[0]))] + Texts(fragments[1..])
  }

  function AllLines(fragments: seq<Fragment>): seq<string> {
    if fragments == [] then [] else FragmentLines(fragments[0]) + AllLines(fragments[1..])
  }

  const PULL_LINE := "# " + (PULL + ". Not embedded")

  /** The rest of the block in short pieces, a list for every line. */
  const WHY := [
    ["# in this script body ", "so the secret never ", "lands in slurmdbd's job"],
    ["# table or in any ", "audit dump. ", "__AURA_SECRETS_PATH__", " gets replaced"]
  ]

  const HOW := [
    ["# with the per-job ", "file path right before ", "the script is base64'd in"],
    ["# the sbatch wrapper."],
    ["__AURA_SECRETS_FILE=", "__AURA_SECRETS_PATH__"]
  ]

  const LOAD := [
    ["if [ -r ", "\"$__AURA_SECRETS_FILE\"", " ]; then"],
    ["  set -a; . ", "\"$__AURA_SECRETS_FILE\"", "; set +a"],
    ["  rm -f ", "\"$__AURA_SECRETS_FILE\""],
    ["fi"]
  ]

  function Lines(pieces: seq<seq<string>>): (r: seq<string>)
    ensures |r| == |pieces|
    ensures forall i :: 0 <= i < |r| ==> r[i] == Concat(pieces[i])
  {
    if pieces == [] then [] else [Concat(pieces[0])] + Lines(pieces[1..])
  }

  function PullBody(): seq<string> {
    Lines(WHY) + Lines(HOW) + Lines(LOAD)
  }

  function SecretLines(staged: bool): seq<string> {
    if staged then [PULL_LINE] + PullBody() + [UNSET] else []
  }

  /** The text handed to `injectPrelude`: the block that loads the secrets, then every fragment. */
  function Assemble(staged: bool, fragments: seq<Fragment>): string {
    (if staged then Join(SecretLines(true) + [""]) else "") + Join(Texts(fragments))
  }

  /**
   * What the block executes, behind its comments: the file's path is kept in a variable; if the file can
   * be read, it is sourced with every assignment exported, and then removed; the variable is unset.
   */
  lemma SecretsBlockIs()
    ensures var lines, file := SecretLines(true), "\"$__AURA_SECRETS_FILE\"";
      && |lines| == 11
      && (forall i :: 0 <= i < 5 ==> "# " <= lines[i])
      && lines[5] == "__AURA_SECRETS_FILE=" + "__AURA_SECRETS_PATH__"
      && lines[6] == "if [ -r " + file + " ]; then"
      && lines[7] == "  set -a; . " + file + "; set +a"
      && lines[8] == "  rm -f " + file
      && lines[9] == "fi"
      && lines[10] == "unset __AURA_SECRETS_FILE"
  {
    var file := "\"$__AURA_SECRETS_FILE\"";
    WhyComments();
    HowIs();
    LoadIs(file);
    hide Lines;
    var body := Lines(WHY) + Lines(HOW) + Lines(LOAD);
    assert |Lines(WHY)| == 2 && |Lines(HOW)| == 3 && |Lines(LOAD)| == 4;
    assert SecretLines(true) == [PULL_LINE] + body + [UNSET];
    forall i | 0 <= i < 5 ensures "# " <= SecretLines(true)[i] {
      if i == 0 {
        assert PULL_LINE == "# " + (PULL + ". Not embedded");
      } else if i < 3 {
        assert SecretLines(true)[i] == Lines(WHY)[i - 1];
      } else {
        assert SecretLines(true)[i] == Lines(HOW)[i - 3];
      }
    }
  }

  lemma WhyComments()
    ensures forall i :: 0 <= i < 2 ==> "# " <= Lines(WHY)[i]
  {
    forall i | 0 <= i < 2 ensures "# " <= Lines(WHY)[i] {
      Begins(WHY[i]);
    }
  }

  lemma Begins(pieces: seq<string>)
    requires pieces != [] && "# " <= pieces[0]
    ensures "# " <= Concat(pieces)
  {
    hide Concat;
    assert Concat(pieces) == pieces[0] + Concat(pieces[1..]) by { ConcatFirst(pieces); }
  }

  lemma ConcatFirst(pieces: seq<string>)
    requires pieces != []
    ensures Concat(pieces) == pieces[0] + Concat(pieces[1..])
  {
  }

  lemma HowIs()
    ensures "# " <= Lines(HOW)[0] && "# " <= Lines(HOW)[1]
    ensures Lines(HOW)[2] == "__AURA_SECRETS_FILE=" + "__AURA_SECRETS_PATH__"
  {
    Begins(HOW[0]);
    Begins(HOW[1]);
    ConcatTwo("__AURA_SECRETS_FILE=", "__AURA_SECRETS_PATH__");
  }

  lemma ConcatThree(x: string, y: string, z: string)
    ensures Concat([x, y, z]) == x + y + z
  {
    assert [x, y, z][1..] == [y, z];
    ConcatTwo(y, z);
  }

  lemma LoadIs(file: string)
    requires file == "\"$__AURA_SECRETS_FILE\""
    ensures var l := Lines(LOAD);
      && l[0] == "if [ -r " + file + " ]; then" && l[1] == "  set -a; . " + file + "; set +a"
      && l[2] == "  rm -f " + file && l[3] == "fi"
  {
    hide Concat;
    ConcatThree("if [ -r ", file, " ]; then");
    ConcatThree("  set -a; . ", file, "; set +a");
    ConcatTwo("  rm -f ", file);
    assert Concat(["fi"]) == "fi" by { ConcatOne("fi"); }
  }

  /* ---------- the prelude line by line ---------- */

  /** A block a scan passes over: nothing but blank lines survives, and it ends outside. */
  predicate Passes(lines: seq<string>) {
    && After(Outside, lines) == Outside
    && forall i :: 0 <= i < |Kept(Outside, lines)| ==> Kept(Outside, lines)[i] == ""
  }

  lemma PassesConcat(a: seq<string>, b: seq<string>)
    requires Passes(a) && Passes(b)
    ensures Passes(a + b)
  {
    AfterConcat(Outside, a, b);
    KeptConcat(Outside, a, b);
  }

  lemma {:induction false} SilentInside(m: Mode, body: seq<string>)
    requires m != Outside
    requires forall i :: 0 <= i < |body| ==> Next(m, body[i]) == m
    ensures After(m, body) == m && Kept(m, body) == []
  {
    hide Next, Opens;
    if body != [] {
      SilentInside(m, Init(body));
    }
  }

  lemma BlockPasses(m: Mode, first: string, body: seq<string>, last: string)
    requires m != Outside && Next(Outside, first) == m && Next(m, last) == Outside
    requires forall i :: 0 <= i < |body| ==> Next(m, body[i]) == m
    ensures Passes([first] + body + [last])
  {
    SilentInside(m, body);
    assert Opens(first) by { EntersByOpening(first); }
    hide Next, Opens;
    assert Init([first]) == [] && Init([last]) == [];
    assert After(Outside, [first]) == m && Kept(Outside, [first]) == [];
    assert After(m, [last]) == Outside && Kept(m, [last]) == [] by {
      assert After(m, Init([last])) == m && Kept(m, Init([last])) == [];
    }
    AfterConcat(Outside, [first], body);
    KeptConcat(Outside, [first], body);
    AfterConcat(Outside, [first] + body, [last]);
    KeptConcat(Outside, [first] + body, [last]);
  }

  lemma EntersByOpening(line: string)
    ensures Next(Outside, line) != Outside <==> Opens(line)
  {
  }

  lemma FragmentPasses(f: Fragment)
    requires ValidFragment(f)
    ensures Passes(FragmentLines(f))
  {
    var first := OPEN + f.title;
    assert OPEN <= first;
    forall i | 0 <= i < |f.body| ensures Next(InPrelude, f.body[i]) == InPrelude {
      assert BodyLine(f.body[i]);
    }
    BlockPasses(InPrelude, first, f.body, CLOSE);
    BlankPasses();
    PassesConcat([first] + f.body + [CLOSE], [""]);
    assert [first] + f.body + [CLOSE] + [""] == FragmentLines(f);
  }

  lemma BlankPasses()
    ensures Passes([""])
  {
    BlankIsPlain();
    KeptAll([""]);
  }

  lemma NothingPasses()
    ensures Passes([])
  {
  }

  lemma {:induction false} FragmentsPass(fragments: seq<Fragment>)
    requires ValidFragments(fragments)
    ensures Passes(AllLines(fragments))
  {
    hide Passes, ValidFragment, FragmentLines;
    if fragments == [] {
      NothingPasses();
    } else {
      FragmentsPass(fragments[1..]);
      FragmentPasses(fragments[0]);
      PassesConcat(FragmentLines(fragments[0]), AllLines(fragments[1..]));
    }
  }

  lemma NotPrefix(s: string, p: string, i: nat)
    requires i < |p| && (i >= |s| || s[i] != p[i])
    ensures !StartsWith(s, p)
  {
  }

  /** A line of the secrets block after its first: no close, no directive, no newline, not blank. */
  predicate Quiet(line: string) {
    && line != "" && line[0] != 'u'
    && (line[0] != '#' || (|line| > 1 && line[1] == ' '))
    && Plain(line)
  }

  predicate QuietPieces(pieces: seq<string>) {
    && pieces != [] && |pieces[0]| > 1 && pieces[0][0] != 'u'
    && (pieces[0][0] != '#' || pieces[0][1] == ' ')
    && forall i :: 0 <= i < |pieces| ==> Plain(pieces[i])
  }

  lemma QuietConcat(pieces: seq<string>)
    requires QuietPieces(pieces)
    ensures Quiet(Concat(pieces))
  {
    PlainConcat(pieces);
  }

  lemma QuietLines(pieces: seq<seq<string>>)
    requires forall i :: 0 <= i < |pieces| ==> QuietPieces(pieces[i])
    ensures forall i :: 0 <= i < |pieces| ==> Quiet(Lines(pieces)[i])
  {
    hide Quiet;
    forall i | 0 <= i < |pieces| ensures Quiet(Lines(pieces)[i]) {
      QuietConcat(pieces[i]);
    }
  }

  lemma WhyQuiet()
    ensures forall i :: 0 <= i < |WHY| ==> QuietPieces(WHY[i])
  {
  }

  lemma HowQuiet()
    ensures forall i :: 0 <= i < |HOW| ==> QuietPieces(HOW[i])
  {
  }

  lemma LoadQuiet()
    ensures forall i :: 0 <= i < |LOAD| ==> QuietPieces(LOAD[i])
  {
  }

  lemma PullBodyQuiet()
    ensures forall i :: 0 <= i < |PullBody()| ==> Quiet(PullBody()[i])
  {
    hide QuietPieces, Quiet, Lines;
    WhyQuiet();
    HowQuiet();
    LoadQuiet();
    QuietLines(WHY);
    QuietLines(HOW);
    QuietLines(LOAD);
  }

  lemma QuietStays(line: string)
    requires Quiet(line)
    ensures Next(InSecrets, line) == InSecrets && !StartsWith(line, SBATCH)
  {
    NotPrefix(line, UNSET, 0);
    NotPrefix(line, SBATCH, if line[0] == '#' then 1 else 0);
  }

  lemma PullLineOpens()
    ensures Next(Outside, PULL_LINE) == InSecrets && Plain(PULL_LINE) && !StartsWith(PULL_LINE, SBATCH)
  {
    var line := PULL_LINE;
    assert line[2..2 + |PULL|] == PULL;
    assert OccursAt(line, PULL, 2);
    assert line[1] == ' ' && line[2] == PULL[0] == 'P';
    assert Plain("# ") && Plain("Pull cluster-level ") && Plain("credentials staged in ") && Plain("a 0600 file")
      && Plain(". Not embedded");
    NotPrefix(line, OPEN, 2);
    NotPrefix(line, SBATCH, 1);
  }

  lemma SecretsPass(staged: bool)
    ensures Passes(SecretLines(staged))
  {
    hide Quiet, Next, Passes, PullBody;
    if staged {
      PullLineOpens();
      PullBodyQuiet();
      forall i | 0 <= i < |PullBody()| ensures Next(InSecrets, PullBody()[i]) == InSecrets {
        QuietStays(PullBody()[i]);
      }
      UnsetCloses();
      BlockPasses(InSecrets, PULL_LINE, PullBody(), UNSET);
    } else {
      NothingPasses();
    }
  }

  lemma UnsetCloses()
    ensures Next(InSecrets, UNSET) == Outside && Plain(UNSET) && !StartsWith(UNSET, SBATCH)
  {
    assert UNSET <= UNSET;
    NotPrefix(UNSET, SBATCH, 0);
  }

  predicate PlainLines(lines: seq<string>) {
    forall i :: 0 <= i < |lines| ==> Plain(lines[i])
  }

  predicate NoDirective(lines: seq<string>) {
    forall i :: 0 <= i < |lines| ==> !StartsWith(lines[i], SBATCH)
  }

  lemma FragmentLinesPlain(f: Fragment)
    requires ValidFragment(f)
    ensures PlainLines(FragmentLines(f)) && NoDirective(FragmentLines(f))
  {
    var lines := FragmentLines(f);
    assert Plain(OPEN) && Plain(CLOSE);
    NotPrefix(OPEN + f.title, SBATCH, 1);
    NotPrefix(CLOSE, SBATCH, 1);
    NotPrefix("", SBATCH, 0);
    hide StartsWith;
    forall i | 0 <= i < |lines| ensures Plain(lines[i]) && !StartsWith(lines[i], SBATCH) {
      if 0 < i <= |f.body| {
        assert BodyLine(f.body[i - 1]);
      }
    }
  }

  lemma SecretLinesPlain(staged: bool)
    ensures PlainLines(SecretLines(staged)) && NoDirective(SecretLines(staged))
  {
    hide Next, PullBody, StartsWith;
    if staged {
      PullLineOpens();
      PullBodyQuiet();
      forall i | 0 <= i < |PullBody()| ensures !StartsWith(PullBody()[i], SBATCH) {
        QuietStays(PullBody()[i]);
      }
      UnsetCloses();
    }
  }

  lemma {:induction false} FragmentsSplit(fragments: seq<Fragment>)
    requires fragments != [] && ValidFragments(fragments)
    ensures Split(Join(Texts(fragments))) == AllLines(fragments)
    ensures NoDirective(AllLines(fragments))
  {
    hide Split, Join, ValidFragment, FragmentLines, Plain, StartsWith;
    var f := fragments[0];
    FragmentLinesPlain(f);
    assert |FragmentLines(f)| > 0 by { FragmentNotEmpty(f); }
    SplitJoin(FragmentLines(f));
    var rest := fragments[1..];
    if rest == [] {
      JoinOne(Join(FragmentLines(f)));
      assert Texts(fragments) == [Join(FragmentLines(f))];
      assert FragmentLines(f) + AllLines(rest) == FragmentLines(f);
    } else {
      FragmentsSplit(rest);
      assert Texts(fragments) == [Join(FragmentLines(f))] + Texts(rest);
      JoinOne(Join(FragmentLines(f)));
      JoinAppend([Join(FragmentLines(f))], Texts(rest));
      SplitAtNewline(Join(FragmentLines(f)), Join(Texts(rest)));
    }
  }

  lemma FragmentNotEmpty(f: Fragment)
    ensures |FragmentLines(f)| > 0 && FragmentLines(f)[0] == OPEN + f.title
  {
  }

  lemma AssembledSplit(staged: bool, fragments: seq<Fragment>)
    requires fragments != [] && ValidFragments(fragments)
    ensures Split(Assemble(staged, fragments)) == SecretLines(staged) + AllLines(fragments)
  {
    hide Split, Join, ValidFragments, Plain, StartsWith, Texts, AllLines;
    FragmentsSplit(fragments);
    var x := Join(Texts(fragments));
    if staged {
      SecretLinesPlain(true);
      var l := SecretLines(true);
      hide SecretLines;
      assert |l| > 0 by { SecretLinesSome(); }
      JoinAppend(l, [""]);
      JoinOne("");
      assert Join(l) + "\n" + "" == Join(l) + "\n";
      SplitAtNewline(Join(l), x);
      SplitJoin(l);
    } else {
      assert "" + x == x;
      assert [] + AllLines(fragments) == AllLines(fragments);
    }
  }

  /** The prelude's own lines: it passes any scan, opens with a block and holds no directive. */
  lemma AssembledLines(staged: bool, fragments: seq<Fragment>)
    requires fragments != [] && ValidFragments(fragments)
    ensures Split(Assemble(staged, fragments)) == SecretLines(staged) + AllLines(fragments)
    ensures Passes(Split(Assemble(staged, fragments)))
    ensures NoDirective(Split(Assemble(staged, fragments)))
  {
    hide Split, Join, Assemble, SecretLines, ValidFragments, Plain, Passes, StartsWith, Texts, AllLines;
    AssembledSplit(staged, fragments);
    FragmentsSplit(fragments);
    FragmentsPass(fragments);
    SecretsPass(staged);
    SecretLinesPlain(staged);
    PassesConcat(SecretLines(staged), AllLines(fragments));
  }

  lemma SecretLinesSome()
    ensures |SecretLines(true)| > 0
  {
  }
}
