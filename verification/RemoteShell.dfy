/**
 * The other end of the bastion shell: what a POSIX shell does with the lines that are written for one
 * request (web/lib/ssh-bastion-mux.ts), as far as these lines use it. Words, lists and parameters are
 * as in sections 2.3, 2.9 and 2.6 of the POSIX.1-2017 Shell Command Language.
 */
module RemoteShell {
  import opened Base64
  import opened BastionDemux
  import opened BastionUpload
  import opened Text
  import opened Wrappers

  datatype Content = Lines(lines: seq<string>) | Bytes(bytes: seq<Byte>)

  /** What a script prints (the last line of it without a newline) and how it exits. */
  datatype Outcome = Outcome(lines: seq<string>, tail: string, rc: int)

  type Runner = seq<Byte> -> Outcome

  /** Files, variables, `$?`, the lines printed, the line not ended yet, and the scripts run. */
  datatype Host = Host(files: map<string, Content>, vars: map<string, string>, status: int,
                       printed: seq<string>, open: string, ran: seq<seq<Byte>>)

  /* ---------- words ---------- */

  function Flush(word: string): seq<string> {
    if word == "" then [] else [word]
  }

  /** The words of a line without quotes; a semicolon is a word of its own. */
  function Words(s: string, word: string): seq<string>
    decreases |s|
  {
    if s == "" then Flush(word)
    else if s[0] == ' ' then Flush(word) + Words(s[1..], "")
    else if s[0] == ';' then Flush(word) + [";"] + Words(s[1..], "")
    else Words(s[1..], word + [s[0]])
  }

  /** Where the word stands first, or the end. */
  function Find(words: seq<string>, x: string): (n: nat)
    ensures n <= |words| && (n < |words| ==> words[n] == x)
  {
    if words == [] || words[0] == x then 0 else 1 + Find(words[1..], x)
  }

  /** What comes before the first such character. */
  function Before(s: string, c: char): (r: string)
    ensures r <= s && (|r| < |s| ==> s[|r|] == c)
  {
    if s == "" || s[0] == c then "" else [s[0]] + Before(s[1..], c)
  }

  function Parameter(h: Host, name: string): string {
    if name == "?" then Numeral(h.status) else if name in h.vars then h.vars[name] else ""
  }

  /** A word that may end in a parameter. */
  function Expand(h: Host, word: string): string {
    var text := Before(word, '$');
    if |text| == |word| then word else text + Parameter(h, word[|text| + 1..])
  }

  /* ---------- commands ---------- */

  /** Standard output. */
  function Print(h: Host, lines: seq<string>, tail: string): Host {
    if lines == [] then h.(open := h.open + tail)
    else h.(printed := h.printed + [h.open + lines[0]] + lines[1..], open := tail)
  }

  /** The commands that are used; any other is not found. */
  function Simple(run: Runner, h: Host, words: seq<string>): Host {
    if |words| == 6 && words[0] == "base64" && words[1] == "-d" && words[2] == "<" && words[4] == ">" then
      if words[3] in h.files && h.files[words[3]].Lines? && Decode(Concat(h.files[words[3]].lines)).Some? then
        h.(files := h.files[words[5] := Bytes(Decode(Concat(h.files[words[3]].lines)).value)], status := 0)
      else h.(status := 1)
    else if |words| == 3 && words[0] == "rm" && words[1] == "-f" then
      h.(files := h.files - {words[2]}, status := 0)
    else if |words| == 2 && words[0] == "bash" then
      if words[1] in h.files && h.files[words[1]].Bytes? then
        var script := h.files[words[1]].bytes;
        var out := run(script);
        Print(h, out.lines, out.tail).(status := out.rc, ran := h.ran + [script])
      else h.(status := 127)
    else if |words| == 2 && words[0] == "echo" then
      Print(h, [Expand(h, words[1])], "").(status := 0)
    else if |words| == 1 && |Before(words[0], '=')| < |words[0]| then
      var name := Before(words[0], '=');
      h.(vars := h.vars[name := Expand(h, words[0][|name| + 1..])], status := 0)
    else h.(status := 127)
  }

  /** An `&&` list: the first failure ends it. */
  function AndList(run: Runner, h: Host, words: seq<string>): Host
    decreases |words|
  {
    var n := Find(words, "&&");
    var r := Simple(run, h, words[..n]);
    if n == |words| || r.status != 0 then r else AndList(run, r, words[n + 1..])
  }

  /** A line: lists with semicolons between them. */
  function Execute(run: Runner, h: Host, words: seq<string>): Host
    decreases |words|
  {
    if words == [] then h
    else
      var n := Find(words, ";");
      var r := AndList(run, h, words[..n]);
      if n == |words| then r else Execute(run, r, words[n + 1..])
  }

  /** `cat` into a file from a heredoc whose delimiter is quoted. */
  function HeredocFile(line: string): Option<string> {
    var words := Words(line, "");
    if |words| == 4 && words[0] == "cat" && words[1] == ">" && words[3] == "<<'" + DELIMITER + "'" then Some(words[2])
    else None
  }

  /** The lines of standard input, one command after another. */
  function Feed(run: Runner, h: Host, lines: seq<string>): Host
    decreases |lines|
  {
    if lines == [] then h
    else
      match HeredocFile(lines[0])
      case Some(file) => (
        match ReadHeredoc(lines[1..])
        case Some((body, rest)) =>
          HeredocShorter(lines[1..]);
          Feed(run, h.(files := h.files[file := Lines(body)], status := 0), rest)
        case None => h)
      case None => Feed(run, Execute(run, h, Words(lines[0], "")), lines[1..])
  }

  lemma {:induction false} HeredocShorter(lines: seq<string>)
    ensures ReadHeredoc(lines).Some? ==> |ReadHeredoc(lines).value.1| < |lines|
  {
    if lines != [] && lines[0] != DELIMITER {
      HeredocShorter(lines[1..]);
    }
  }

  /* ---------- how the words of a line are read ---------- */

  predicate Unbroken(w: string) {
    forall i :: 0 <= i < |w| ==> w[i] != ' ' && w[i] != ';'
  }

  lemma {:induction false} WordGrows(w: string, rest: string, word: string)
    requires Unbroken(w)
    ensures Words(w + rest, word) == Words(rest, word + w)
  {
    if w == "" {
      assert w + rest == rest && word + w == word;
    } else {
      assert (w + rest)[0] == w[0] && (w + rest)[1..] == w[1..] + rest;
      WordGrows(w[1..], rest, word + [w[0]]);
      assert word + [w[0]] + w[1..] == word + w;
    }
  }

  lemma SpaceRead(rest: string, word: string)
    ensures Words(" " + rest, word) == Flush(word) + Words(rest, "")
  {
    assert (" " + rest)[0] == ' ' && (" " + rest)[1..] == rest;
  }

  lemma SemicolonRead(rest: string, word: string)
    ensures Words("; " + rest, word) == Flush(word) + [";"] + Words(rest, "")
  {
    var s := "; " + rest;
    assert s[0] == ';' && s[1..] == " " + rest;
    SpaceRead(rest, "");
    assert Flush("") + Words(rest, "") == Words(rest, "");
  }

  lemma WordRead(w: string, end: string, rest: string)
    requires w != "" && Unbroken(w) && (end == " " || end == "; ")
    ensures Words(w + (end + rest), "") == [w] + (if end == "; " then [";"] else []) + Words(rest, "")
  {
    WordGrows(w, end + rest, "");
    assert "" + w == w;
    hide Words, Unbroken;
    if end == " " {
      SpaceRead(rest, w);
    } else {
      SemicolonRead(rest, w);
    }
  }

  lemma LastRead(w: string)
    requires w != "" && Unbroken(w)
    ensures Words(w, "") == [w]
  {
    WordGrows(w, "", "");
    assert w + "" == w && "" + w == w;
    NothingRead(w);
  }

  lemma NothingRead(w: string)
    requires w != ""
    ensures Words("", w) == [w] && Words("", "") == []
  {
  }

  lemma {:induction false} FindAt(a: seq<string>, x: string, b: seq<string>)
    requires x !in a
    ensures Find(a, x) == |a| && Find(a + ([x] + b), x) == |a|
  {
    if a == [] {
      assert a + ([x] + b) == [x] + b;
    } else {
      assert (a + ([x] + b))[0] == a[0] && a[0] in a;
      assert (a + ([x] + b))[1..] == a[1..] + ([x] + b);
      FindAt(a[1..], x, b);
    }
  }

  lemma {:induction false} BeforeAt(a: string, c: char, b: string)
    requires c !in a
    ensures Before(a, c) == a && Before(a + ([c] + b), c) == a
  {
    if a == "" {
      assert a + ([c] + b) == [c] + b;
    } else {
      assert (a + ([c] + b))[0] == a[0] && a[0] in a;
      assert (a + ([c] + b))[1..] == a[1..] + ([c] + b);
      BeforeAt(a[1..], c, b);
    }
  }

  lemma ExecuteList(run: Runner, h: Host, a: seq<string>, b: seq<string>)
    requires a != [] && ";" !in a
    ensures Execute(run, h, a + ([";"] + b)) == Execute(run, AndList(run, h, a), b)
    ensures Execute(run, h, a) == AndList(run, h, a)
  {
    FindAt(a, ";", b);
    var words := a + ([";"] + b);
    assert words[..|a|] == a && words[|a| + 1..] == b && a[..|a|] == a;
  }

  lemma AndThen(run: Runner, h: Host, a: seq<string>, b: seq<string>)
    requires "&&" !in a
    ensures var r := Simple(run, h, a);
      AndList(run, h, a + (["&&"] + b)) == if r.status != 0 then r else AndList(run, r, b)
    ensures AndList(run, h, a) == Simple(run, h, a)
  {
    hide Simple;
    FindAt(a, "&&", b);
    var words := a + (["&&"] + b);
    assert words[..|a|] == a && words[|a| + 1..] == b && a[..|a|] == a;
  }

  /* ---------- the commands of the run line ---------- */

  lemma ExpandAt(h: Host, text: string, name: string)
    requires '$' !in text
    ensures Expand(h, text + "$" + name) == text + Parameter(h, name)
    ensures Expand(h, text) == text
  {
    BeforeAt(text, '$', name);
    var word := text + "$" + name;
    assert word == text + (['$'] + name);
    assert word[|text| + 1..] == name;
  }

  lemma Assign(run: Runner, h: Host, name: string, value: string)
    requires '=' !in name
    ensures Simple(run, h, [name + "=" + value]) == h.(vars := h.vars[name := Expand(h, value)], status := 0)
  {
    BeforeAt(name, '=', value);
    var word := name + "=" + value;
    assert word == name + (['='] + value);
    assert word[|name| + 1..] == value;
    hide Expand, Decode, Concat;
  }

  /* ---------- the words of the run line ---------- */

  lemma FirstWords(rest: string)
    ensures Words("base64 -d < " + rest, "") == ["base64", "-d", "<"] + Words(rest, "")
  {
    var x := "<" + (" " + rest);
    var y := "-d" + (" " + x);
    assert "base64 -d < " == "base64" + (" " + ("-d" + (" " + ("<" + " "))));
    assert "base64 -d < " + rest == "base64" + (" " + y);
    WordRead("base64", " ", y);
    WordRead("-d", " ", x);
    WordRead("<", " ", rest);
    hide Words;
    assert ["base64"] + (["-d"] + (["<"] + Words(rest, ""))) == ["base64", "-d", "<"] + Words(rest, "");
  }

  lemma IntoWords(b: string, rest: string)
    requires b != "" && Unbroken(b)
    ensures Words(b + (" > " + rest), "") == [b, ">"] + Words(rest, "")
  {
    var x := ">" + (" " + rest);
    assert " > " == " " + (">" + " ");
    assert " > " + rest == " " + x;
    WordRead(b, " ", x);
    WordRead(">", " ", rest);
    hide Words;
  }

  lemma RemoveWords(f: string, rest: string)
    requires f != "" && Unbroken(f)
    ensures Words(f + (" && rm -f " + rest), "") == [f, "&&", "rm", "-f"] + Words(rest, "")
  {
    var x := "-f" + (" " + rest);
    var y := "rm" + (" " + x);
    var z := "&&" + (" " + y);
    assert " && rm -f " == " " + ("&&" + (" " + ("rm" + (" " + ("-f" + " ")))));
    assert " && rm -f " + rest == " " + z;
    WordRead(f, " ", z);
    WordRead("&&", " ", y);
    WordRead("rm", " ", x);
    WordRead("-f", " ", rest);
    hide Words;
    assert [f] + (["&&"] + (["rm"] + (["-f"] + Words(rest, "")))) == [f, "&&", "rm", "-f"] + Words(rest, "");
  }

  lemma BashWords(b: string, rest: string)
    requires b != "" && Unbroken(b)
    ensures Words(b + (" && bash " + rest), "") == [b, "&&", "bash"] + Words(rest, "")
  {
    var x := "bash" + (" " + rest);
    var y := "&&" + (" " + x);
    assert " && bash " == " " + ("&&" + (" " + ("bash" + " ")));
    assert " && bash " + rest == " " + y;
    WordRead(b, " ", y);
    WordRead("&&", " ", x);
    WordRead("bash", " ", rest);
    hide Words;
    assert [b] + (["&&"] + (["bash"] + Words(rest, ""))) == [b, "&&", "bash"] + Words(rest, "");
  }

  lemma KeepWords(f: string, rest: string)
    requires f != "" && Unbroken(f)
    ensures Words(f + ("; __AURA_RC=$?; rm -f " + rest), "")
         == [f, ";", "__AURA_RC=$?", ";", "rm", "-f"] + Words(rest, "")
  {
    var x := "-f" + (" " + rest);
    var y := "rm" + (" " + x);
    var z := "__AURA_RC=$?" + ("; " + y);
    assert "; __AURA_RC=$?; rm -f " == "; " + ("__AURA_RC=$?" + ("; " + ("rm" + (" " + ("-f" + " ")))));
    assert "; __AURA_RC=$?; rm -f " + rest == "; " + z;
    WordRead(f, "; ", z);
    WordRead("__AURA_RC=$?", "; ", y);
    WordRead("rm", " ", x);
    WordRead("-f", " ", rest);
    hide Words;
    assert [f] + [";"] + (["__AURA_RC=$?"] + [";"] + (["rm"] + (["-f"] + Words(rest, ""))))
        == [f, ";", "__AURA_RC=$?", ";", "rm", "-f"] + Words(rest, "");
  }

  lemma EchoWords(f: string, word: string)
    requires f != "" && Unbroken(f) && word != "" && Unbroken(word)
    ensures Words(f + ("; echo " + word), "") == [f, ";", "echo", word]
  {
    assert "; echo " == "; " + ("echo" + " ");
    assert "; echo " + word == "; " + ("echo" + (" " + word));
    WordRead(f, "; ", "echo" + (" " + word));
    WordRead("echo", " ", word);
    LastRead(word);
    hide Words;
  }

  lemma NextPiece(x: string, rest: seq<string>)
    ensures Concat([x] + rest) == x + Concat(rest)
  {
    assert ([x] + rest)[1..] == rest;
  }

  /** The run line as one text after another. */
  lemma RunLineIs(id: string)
    ensures var b, f := RemoteB64(id), RemoteFile(id);
      var last := EndPrefix(id) + "$__AURA_RC";
      RunLine(id) == "base64 -d < " + (b + (" > " + (f + (" && rm -f " + (b + (" && bash " + (f
        + ("; __AURA_RC=$?; rm -f " + (f + ("; echo " + last))))))))))
  {
    hide RemoteB64, RemoteFile, EndPrefix, Concat;
    var b, f, e := RemoteB64(id), RemoteFile(id), EndPrefix(id);
    var p6 := ["; echo ", e, "$__AURA_RC"];
    var p5 := ["; __AURA_RC=$?; rm -f ", f] + p6;
    var p4 := [" && bash ", f] + p5;
    var p3 := [" && rm -f ", b] + p4;
    var p2 := [" > ", f] + p3;
    assert ["base64 -d < ", b] + p2 ==
      ["base64 -d < ", RemoteB64(id), " > ", RemoteFile(id), " && rm -f ", RemoteB64(id),
       " && bash ", RemoteFile(id), "; __AURA_RC=$?; rm -f ", RemoteFile(id),
       "; echo ", EndPrefix(id), "$__AURA_RC"];
    assert RunLine(id) == Concat(["base64 -d < ", b] + p2);
    TwoPieces("base64 -d < ", b, p2);
    TwoPieces(" > ", f, p3);
    TwoPieces(" && rm -f ", b, p4);
    TwoPieces(" && bash ", f, p5);
    TwoPieces("; __AURA_RC=$?; rm -f ", f, p6);
    LastPieces("; echo ", e, "$__AURA_RC");
  }

  lemma TwoPieces(x: string, y: string, rest: seq<string>)
    ensures Concat([x, y] + rest) == x + (y + Concat(rest))
  {
    NextPiece(x, [y] + rest);
    NextPiece(y, rest);
    assert [x] + ([y] + rest) == [x, y] + rest;
  }

  lemma LastPieces(x: string, y: string, z: string)
    ensures Concat([x, y, z]) == x + (y + z)
  {
    TwoPieces(x, y, [z]);
    assert [x, y] + [z] == [x, y, z];
    NextPiece(z, []);
    assert [z] + [] == [z] && z + Concat([]) == z;
  }

  /** A request id that is one word, as hexadecimal ones are. */
  predicate WordId(id: string) {
    forall c :: c in id ==> 'a' <= c <= 'z' || '0' <= c <= '9'
  }

  lemma NamesUnbroken(id: string)
    requires WordId(id)
    ensures var b, f, last := RemoteB64(id), RemoteFile(id), EndPrefix(id) + "$__AURA_RC";
      b != "" && Unbroken(b) && f != "" && Unbroken(f) && last != "" && Unbroken(last)
  {
    assert forall i :: 0 <= i < |id| ==> id[i] in id;
    UnbrokenIn("/tmp/.aura-bmux-", id, ".b64");
    UnbrokenIn("/tmp/.aura-bmux-", id, ".sh");
    UnbrokenIn("__AURA_CMD_END_", id, "__=");
    var e := EndPrefix(id);
    assert e == "__AURA_CMD_END_" + id + "__=";
    UnbrokenIn(e, "", "$__AURA_RC");
    assert e + "" + "$__AURA_RC" == e + "$__AURA_RC";
  }

  lemma UnbrokenIn(a: string, b: string, c: string)
    requires Unbroken(a) && Unbroken(b) && Unbroken(c)
    ensures Unbroken(a + b + c)
  {
  }

  /** The words of the run line. */
  lemma RunLineWords(id: string)
    requires WordId(id)
    ensures var b, f := RemoteB64(id), RemoteFile(id);
      Words(RunLine(id), "") ==
        ["base64", "-d", "<", b, ">", f] + (["&&"] + (["rm", "-f", b] + (["&&"] + ["bash", f])))
        + ([";"] + (["__AURA_RC=$?"] + ([";"] + (["rm", "-f", f] + ([";"] + ["echo", EndPrefix(id) + "$__AURA_RC"])))))
  {
    var b, f, last := RemoteB64(id), RemoteFile(id), EndPrefix(id) + "$__AURA_RC";
    RunLineIs(id);
    NamesUnbroken(id);
    hide RunLine, RemoteB64, RemoteFile, EndPrefix, Words, Unbroken;
    var t5 := f + ("; echo " + last);
    var t4 := f + ("; __AURA_RC=$?; rm -f " + t5);
    var t3 := b + (" && bash " + t4);
    var t2 := f + (" && rm -f " + t3);
    var t1 := b + (" > " + t2);
    FirstWords(t1);
    IntoWords(b, t2);
    RemoveWords(f, t3);
    BashWords(b, t4);
    KeepWords(f, t5);
    EchoWords(f, last);
  }

  /* ---------- what the lines do ---------- */

  /** The START line is printed. */
  lemma EchoStartPrints(run: Runner, h: Host, id: string)
    requires WordId(id)
    ensures Execute(run, h, Words(EchoStart(id), "")) ==
      h.(printed := h.printed + [h.open + StartMarker(id)], open := "", status := 0)
  {
    var m := StartMarker(id);
    StartWords(id);
    var words := ["echo", m];
    assert '$' !in m && m[0] == '_';
    ExpandAt(h, m, "");
    hide Words, StartMarker, EchoStart, Unbroken, Expand, Decode, Concat, Before;
    assert ";" !in words && "&&" !in words;
    ExecuteList(run, h, words, []);
    AndThen(run, h, words, []);
    assert h.printed + [h.open + m] + [] == h.printed + [h.open + m];
  }

  /** After the script: its text is printed behind what was, its status is kept. */
  function Ran(run: Runner, h: Host, script: seq<Byte>): Host {
    Print(h, run(script).lines, run(script).tail).(status := run(script).rc, ran := h.ran + [script])
  }

  /** The first list: decode, remove the base64 file, run. */
  lemma FirstList(run: Runner, h: Host, b: string, f: string, script: seq<Byte>)
    requires b != f && b != "&&" && f != "&&"
    requires b in h.files && h.files[b].Lines? && Decode(Concat(h.files[b].lines)) == Some(script)
    ensures var words := ["base64", "-d", "<", b, ">", f] + (["&&"] + (["rm", "-f", b] + (["&&"] + ["bash", f])));
      AndList(run, h, words) == Ran(run, h.(files := h.files[f := Bytes(script)] - {b}, status := 0), script)
  {
    var x, y, z := ["base64", "-d", "<", b, ">", f], ["rm", "-f", b], ["bash", f];
    var h1 := h.(files := h.files[f := Bytes(script)], status := 0);
    var h2 := h1.(files := h1.files - {b});
    DecodeRuns(run, h, b, f, script);
    RemoveRuns(run, h1, b);
    BashRuns(run, h2, f, script);
    hide Simple, Ran, Decode, Concat;
    AndThen(run, h, x, y + (["&&"] + z));
    AndThen(run, h1, y, z);
    AndThen(run, h2, z, []);
  }

  lemma DecodeRuns(run: Runner, h: Host, b: string, f: string, script: seq<Byte>)
    requires b in h.files && h.files[b].Lines? && Decode(Concat(h.files[b].lines)) == Some(script)
    ensures Simple(run, h, ["base64", "-d", "<", b, ">", f])
         == h.(files := h.files[f := Bytes(script)], status := 0)
  {
    hide Print, Decode, Concat, Expand, Before;
  }

  lemma RemoveRuns(run: Runner, h: Host, b: string)
    ensures Simple(run, h, ["rm", "-f", b]) == h.(files := h.files - {b}, status := 0)
  {
    hide Print, Decode, Concat, Expand, Before;
  }

  lemma BashRuns(run: Runner, h: Host, f: string, script: seq<Byte>)
    requires f in h.files && h.files[f] == Bytes(script)
    ensures Simple(run, h, ["bash", f]) == Ran(run, h, script)
  {
    hide Print, Decode, Concat, Expand, Before;
  }

  lemma Removes(run: Runner, h: Host, f: string)
    requires f != "&&"
    ensures AndList(run, h, ["rm", "-f", f]) == h.(files := h.files - {f}, status := 0)
  {
    AndThen(run, h, ["rm", "-f", f], []);
    RemoveRuns(run, h, f);
    hide Simple;
  }

  lemma KeepsStatus(run: Runner, h: Host)
    ensures AndList(run, h, ["__AURA_RC=$?"]) == h.(vars := h.vars["__AURA_RC" := Numeral(h.status)], status := 0)
  {
    hide Simple, AndList, Numeral, Expand;
    AndThen(run, h, ["__AURA_RC=$?"], []);
    KeepIs();
    Assign(run, h, "__AURA_RC", "$?");
    StatusText(h);
  }

  lemma KeepIs()
    ensures "__AURA_RC" + "=" + "$?" == "__AURA_RC=$?" && "__AURA_RC=$?" != "&&" && '=' !in "__AURA_RC"
  {
  }

  lemma StatusText(h: Host)
    ensures Expand(h, "$?") == Numeral(h.status)
  {
    ExpandAt(h, "", "?");
    assert "" + "$" + "?" == "$?" && "" + Parameter(h, "?") == Parameter(h, "?");
  }

  lemma Reports(run: Runner, h: Host, end: string)
    requires '$' !in end && end + "$__AURA_RC" != "&&" && "__AURA_RC" in h.vars
    ensures AndList(run, h, ["echo", end + "$__AURA_RC"])
         == h.(printed := h.printed + [h.open + (end + h.vars["__AURA_RC"])], open := "", status := 0)
  {
    var word := end + "$__AURA_RC";
    assert word == end + "$" + "__AURA_RC";
    ExpandAt(h, end, "__AURA_RC");
    AndThen(run, h, ["echo", word], []);
    hide Expand, Decode, Concat, Before;
    var line := h.open + (end + h.vars["__AURA_RC"]);
    assert h.printed + [line] + [] == h.printed + [line];
  }

  /** What the run line leaves: the script has run, both files are gone, the END line is printed. */
  function Reported(run: Runner, h: Host, b: string, f: string, end: string, script: seq<Byte>): Host {
    var r := Print(h, run(script).lines, run(script).tail);
    r.(files := h.files - {b, f}, vars := h.vars["__AURA_RC" := Numeral(run(script).rc)], status := 0,
       printed := r.printed + [r.open + (end + Numeral(run(script).rc))], open := "", ran := h.ran + [script])
  }

  lemma RunWordsRun(run: Runner, h: Host, b: string, f: string, end: string, script: seq<Byte>)
    requires b != f && b !in {"&&", ";"} && f !in {"&&", ";"} && '$' !in end && |end| > 2 && ';' !in end
    requires b in h.files && h.files[b].Lines? && Decode(Concat(h.files[b].lines)) == Some(script)
    ensures var first := ["base64", "-d", "<", b, ">", f] + (["&&"] + (["rm", "-f", b] + (["&&"] + ["bash", f])));
      Execute(run, h, first + ([";"] + (["__AURA_RC=$?"] + ([";"] + (["rm", "-f", f]
                      + ([";"] + ["echo", end + "$__AURA_RC"])))))) == Reported(run, h, b, f, end, script)
  {
    hide Decode, Concat, Expand, Before, Simple, AndList, Execute, Print, Ran;
    var first := ["base64", "-d", "<", b, ">", f] + (["&&"] + (["rm", "-f", b] + (["&&"] + ["bash", f])));
    var after := ["__AURA_RC=$?"] + ([";"] + (["rm", "-f", f] + ([";"] + ["echo", end + "$__AURA_RC"])));
    var h0 := h.(files := h.files[f := Bytes(script)] - {b}, status := 0);
    FirstList(run, h, b, f, script);
    ExecuteList(run, h, first, after);
    AfterRun(run, Ran(run, h0, script), f, end);
    RanIs(run, h0, script);
    RanIs(run, h, script);
    assert h0.files - {f} == h.files - {b, f};
  }

  lemma RanIs(run: Runner, h: Host, script: seq<Byte>)
    ensures var r, p := Ran(run, h, script), Print(h, run(script).lines, run(script).tail);
      && r.files == h.files && r.vars == h.vars && r.status == run(script).rc && r.ran == h.ran + [script]
      && r.printed == p.printed && r.open == p.open
    ensures forall files, status ::
      var p, q := Print(h, run(script).lines, run(script).tail),
                  Print(h.(files := files, status := status), run(script).lines, run(script).tail);
      q.printed == p.printed && q.open == p.open
  {
  }

  /** The rest of the line, behind the script: keep its status, remove its file, print the END line. */
  lemma AfterRun(run: Runner, h: Host, f: string, end: string)
    requires f !in {"&&", ";"} && '$' !in end && |end| > 2 && ';' !in end
    ensures Execute(run, h, ["__AURA_RC=$?"] + ([";"] + (["rm", "-f", f] + ([";"] + ["echo", end + "$__AURA_RC"]))))
         == h.(files := h.files - {f}, vars := h.vars["__AURA_RC" := Numeral(h.status)], status := 0,
               printed := h.printed + [h.open + (end + Numeral(h.status))], open := "")
  {
    hide Decode, Concat, Expand, Before, Simple, AndList, Execute, Numeral;
    var keep, remove, last := ["__AURA_RC=$?"], ["rm", "-f", f], ["echo", end + "$__AURA_RC"];
    assert last[1][0] == end[0] && last[1] != ";" && |last[1]| > 2;
    var h2 := h.(vars := h.vars["__AURA_RC" := Numeral(h.status)], status := 0);
    var h3 := h2.(files := h2.files - {f}, status := 0);
    KeepsStatus(run, h);
    Removes(run, h2, f);
    Reports(run, h3, end);
    ExecuteList(run, h, keep, remove + ([";"] + last));
    ExecuteList(run, h2, remove, last);
    ExecuteList(run, h3, last, []);
  }

  /* ---------- one request from end to end ---------- */

  lemma NamesApart(id: string)
    requires WordId(id)
    ensures var b, f, e := RemoteB64(id), RemoteFile(id), EndPrefix(id);
      b != f && b !in {"&&", ";"} && f !in {"&&", ";"} && '$' !in e && ';' !in e && |e| > 2
  {
    var b, f := RemoteB64(id), RemoteFile(id);
    assert |b| == |f| + 1 && b[0] == '/' && f[0] == '/';
  }

  lemma OpenerWords(id: string)
    requires WordId(id)
    ensures HeredocFile(HeredocOpener(id)) == Some(RemoteB64(id))
  {
    var b, d := RemoteB64(id), "<<'" + DELIMITER + "'";
    NamesUnbroken(id);
    OpenerIs(id);
    assert Unbroken(DELIMITER);
    UnbrokenIn("<<'", DELIMITER, "'");
    hide RemoteB64, Words, Unbroken, HeredocOpener;
    var x := b + (" " + d);
    var y := ">" + (" " + x);
    WordRead("cat", " ", y);
    WordRead(">", " ", x);
    WordRead(b, " ", d);
    LastRead(d);
    assert Words("cat" + (" " + y), "") == ["cat", ">", b, d];
  }

  lemma OpenerIs(id: string)
    ensures HeredocOpener(id) == "cat" + (" " + (">" + (" " + (RemoteB64(id) + (" " + ("<<'" + DELIMITER + "'"))))))
  {
    hide RemoteB64, Concat;
    var b := RemoteB64(id);
    TwoPieces("cat > ", b, [" <<'", DELIMITER, "'"]);
    LastPieces(" <<'", DELIMITER, "'");
    assert ["cat > ", b] + [" <<'", DELIMITER, "'"] == ["cat > ", b, " <<'", DELIMITER, "'"];
    assert "cat > " == "cat" + (" " + (">" + " "));
    assert " <<'" + (DELIMITER + "'") == " " + ("<<'" + DELIMITER + "'");
    var d := "<<'" + DELIMITER + "'";
    assert "cat > " + (b + (" " + d)) == "cat" + (" " + (">" + (" " + (b + (" " + d)))));
  }

  lemma NotAHeredoc(id: string)
    requires WordId(id)
    ensures HeredocFile(RunLine(id)) == None && HeredocFile(EchoStart(id)) == None && HeredocFile("") == None
  {
    RunLineWords(id);
    StartWords(id);
    hide RunLine, EchoStart, StartMarker, EndPrefix, RemoteB64, RemoteFile;
    NoWords();
  }

  lemma NoWords()
    ensures Words("", "") == []
  {
  }

  lemma StartWords(id: string)
    requires WordId(id)
    ensures Words(EchoStart(id), "") == ["echo", StartMarker(id)]
  {
    var m := StartMarker(id);
    assert forall i :: 0 <= i < |id| ==> id[i] in id;
    UnbrokenIn("__AURA_CMD_START_", id, "__");
    assert m == "__AURA_CMD_START_" + id + "__";
    assert "echo " + m == "echo" + (" " + m);
    WordRead("echo", " ", m);
    LastRead(m);
  }

  /**
   * End to end: a shell at the start of a line that is fed what is written for a request runs exactly
   * the request's script, once; what it prints meanwhile is one frame, of the output and the exit code
   * of that script; and the two temporary files are gone.
   */
  lemma CommandRuns(run: Runner, h: Host, id: string, script: seq<Byte>)
    requires WordId(id) && h.open == ""
    ensures var out := run(script);
      Feed(run, h, Split(Command(id, script))) ==
        h.(files := h.files - {RemoteB64(id), RemoteFile(id)}, vars := h.vars["__AURA_RC" := Numeral(out.rc)],
           status := 0, printed := h.printed + FrameLines(id, Frame([], out.lines, out.tail, out.rc)),
           ran := h.ran + [script])
  {
    hide Execute, Words, Split, Command, RunLine, EchoStart, HeredocFile, ReadHeredoc, Decode, Concat,
      RemoteB64, RemoteFile, StartMarker, EndPrefix, FrameLines, Reported, Print;
    var lines, b, f := Split(Command(id, script)), RemoteB64(id), RemoteFile(id);
    PlainWord(id);
    var body := UploadFidelity(id, script);
    OpenerWords(id);
    var h0 := h.(files := h.files[b := Lines(body)], status := 0);
    HeredocShorter(lines[1..]);
    Rest(run, h0, id);
    EchoStartPrints(run, h0, id);
    var h1 := h0.(printed := h0.printed + [h0.open + StartMarker(id)], open := "", status := 0);
    RunLineWords(id);
    NamesApart(id);
    RunWordsRun(run, h1, b, f, EndPrefix(id), script);
    OneFrame(run, h, h1, id, script);
    ReportedIs(run, h1, b, f, EndPrefix(id), script);
    assert h1.files - {b, f} == h.files - {b, f};
  }

  lemma ReportedIs(run: Runner, h: Host, b: string, f: string, end: string, script: seq<Byte>)
    ensures var r := Reported(run, h, b, f, end, script);
      r == Host(h.files - {b, f}, h.vars["__AURA_RC" := Numeral(run(script).rc)], 0, r.printed, "", h.ran + [script])
  {
  }

  lemma PlainWord(id: string)
    requires WordId(id)
    ensures Plain(id)
  {
  }

  /** The three lines behind the heredoc. */
  lemma Rest(run: Runner, h: Host, id: string)
    requires WordId(id)
    ensures Feed(run, h, [EchoStart(id), RunLine(id), ""])
         == Execute(run, Execute(run, h, Words(EchoStart(id), "")), Words(RunLine(id), ""))
  {
    NotAHeredoc(id);
    NoWords();
    hide HeredocFile, EchoStart, RunLine, Words, ReadHeredoc;
    assert [EchoStart(id), RunLine(id), ""][1..] == [RunLine(id), ""];
    assert [RunLine(id), ""][1..] == [""] && [""][1..] == [];
    var h1 := Execute(run, h, Words(EchoStart(id), ""));
    var h2 := Execute(run, h1, Words(RunLine(id), ""));
    assert Execute(run, h2, []) == h2;
    hide Execute;
    assert Feed(run, h2, [""]) == Feed(run, Execute(run, h2, Words("", "")), []) == h2;
  }

  lemma PrintIs(h: Host, lines: seq<string>, tail: string)
    requires h.open == ""
    ensures Print(h, lines, tail).printed == h.printed + lines && Print(h, lines, tail).open == tail
  {
    if lines == [] {
      assert "" + tail == tail && h.printed + [] == h.printed;
    } else {
      assert "" + lines[0] == lines[0] && lines == [lines[0]] + lines[1..];
      assert h.printed + [lines[0]] + lines[1..] == h.printed + lines;
    }
  }

  /** What is printed from the START line to the END line is the frame of the script's output. */
  lemma OneFrame(run: Runner, h: Host, h1: Host, id: string, script: seq<Byte>)
    requires h.open == "" == h1.open && h1.printed == h.printed + [h.open + StartMarker(id)]
    ensures var out := run(script);
      Reported(run, h1, RemoteB64(id), RemoteFile(id), EndPrefix(id), script).printed
      == h.printed + FrameLines(id, Frame([], out.lines, out.tail, out.rc))
  {
    hide StartMarker, EndPrefix, RemoteB64, RemoteFile, Numeral, Print;
    var out := run(script);
    PrintIs(h1, out.lines, out.tail);
    var m, e := StartMarker(id), EndPrefix(id) + Numeral(out.rc);
    assert "" + m == m;
    assert EndLine(id, out.tail, out.rc) == out.tail + e;
    assert h.printed + [m] + out.lines + [out.tail + e] == h.printed + ([] + [m] + out.lines + [out.tail + e]);
  }
}
