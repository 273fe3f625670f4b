/**
 * Quoting values for a POSIX shell, against the shell's own reading of quotes: backslash and
 * single-quotes as in sections 2.2.1 and 2.2.2 of the POSIX.1-2017 Shell Command Language.
 */
module ShellQuote {
  import opened Wrappers

  /* ---------- the shell's side ---------- */

  /** Characters that mean something to the shell when they stand unquoted in a word. */
  predicate Special(c: char) {
    c in {'|', '&', ';', '<', '>', '(', ')', '$', '`', '\\', '"', '\'', ' ', '\t', '\n',
          '*', '?', '[', '#', '~', '!', '{', '}'}
  }

  predicate Ordinary(s: string) {
    forall i :: 0 <= i < |s| ==> !Special(s[i])
  }

  /** The command so far with its last word closed. */
  function Closed(words: seq<string>, cur: Option<string>): seq<string> {
    words + if cur.Some? then [cur.value] else []
  }

  function Command(words: seq<string>): seq<seq<string>> {
    if words == [] then [] else [words]
  }

  /**
   * The commands in `s`, each a list of words, read from inside or outside single-quotes. None when
   * a quote stays open or an unquoted character asks for something other than plain words.
   */
  function Read(s: string, quoted: bool, words: seq<string>, cur: Option<string>): Option<seq<seq<string>>>
    requires quoted ==> cur.Some?
  {
    if s == "" then if quoted then None else Some(Command(Closed(words, cur)))
    else if quoted then
      if s[0] == '\'' then Read(s[1..], false, words, cur)
      else Read(s[1..], true, words, Some(cur.value + [s[0]]))
    else if s[0] == '\'' then Read(s[1..], true, words, Some(cur.GetOr("")))
    else if s[0] == '\\' then
      if |s| == 1 then None
      else if s[1] == '\n' then Read(s[2..], false, words, cur)
      else Read(s[2..], false, words, Some(cur.GetOr("") + [s[1]]))
    else if s[0] == ' ' || s[0] == '\t' then Read(s[1..], false, Closed(words, cur), None)
    else if s[0] == '\n' then
      match Read(s[1..], false, [], None)
      case Some(more) => Some(Command(Closed(words, cur)) + more)
      case None => None
    else if Special(s[0]) then None
    else Read(s[1..], false, words, Some(cur.GetOr("") + [s[0]]))
  }

  function Shell(s: string): Option<seq<seq<string>>> {
    Read(s, false, [], None)
  }

  /* ---------- the program's side ---------- */

  /** `s.replace(/'/g, "'\\''")`. */
  function Escaped(s: string): string {
    if s == "" then "" else (if s[0] == '\'' then "'\\''" else [s[0]]) + Escaped(s[1..])
  }

  /** `shQuote`. */
  function Quote(s: string): string {
    "'" + Escaped(s) + "'"
  }

  /** `[A-Za-z0-9_,=+\-:\/]`. */
  predicate Safe(c: char) {
    || 'A' <= c <= 'Z' || 'a' <= c <= 'z' || '0' <= c <= '9'
    || c in {'_', ',', '=', '+', '-', ':', '/'}
  }

  /** `shellEscape`. */
  function ShellEscape(s: string): string {
    if s != "" && forall i :: 0 <= i < |s| ==> Safe(s[i]) then s else Quote(s)
  }

  /** Escaped arguments with a space between them. */
  function CommandLine(args: seq<string>): string {
    if args == [] then ""
    else if |args| == 1 then ShellEscape(args[0])
    else ShellEscape(args[0]) + " " + CommandLine(args[1..])
  }

  datatype Secret = Secret(name: string, value: string)

  function ExportLine(e: Secret): string {
    "export " + (e.name + "=" + Quote(e.value))
  }

  /** The per-job file of secrets: an `export` a line. */
  function SecretsBody(entries: seq<Secret>): string {
    if entries == [] then ""
    else if |entries| == 1 then ExportLine(entries[0])
    else ExportLine(entries[0]) + "\n" + SecretsBody(entries[1..])
  }

  /* ---------- they agree ---------- */

  /** Unquoted ordinary characters join the current word. */
  lemma {:induction false} ReadOrdinary(s: string, rest: string, words: seq<string>, cur: Option<string>)
    requires s != "" && Ordinary(s)
    ensures Read(s + rest, false, words, cur) == Read(rest, false, words, Some(cur.GetOr("") + s))
  {
    var w := Some(cur.GetOr("") + [s[0]]);
    assert (s + rest)[0] == s[0] && !Special(s[0]);
    assert (s + rest)[1..] == s[1..] + rest;
    if |s| == 1 {
      assert s[1..] + rest == rest && [s[0]] == s;
    } else {
      ReadOrdinary(s[1..], rest, words, w);
      assert cur.GetOr("") + [s[0]] + s[1..] == cur.GetOr("") + s;
    }
  }

  lemma ReadApostrophe(rest: string, words: seq<string>, w: string)
    ensures Read("'\\''" + rest, true, words, Some(w)) == Read(rest, true, words, Some(w + "'"))
  {
    var t := "'\\''" + rest;
    var u := "\\''" + rest;
    var v := "'" + rest;
    assert t[0] == '\'' && t[1..] == u;
    assert u[0] == '\\' && u[1] == '\'' && u[2..] == v && [u[1]] == "'";
    assert v[0] == '\'' && v[1..] == rest;
    assert Read(u, false, words, Some(w)) == Read(v, false, words, Some(w + "'"));
  }

  lemma {:induction false} ReadEscaped(s: string, rest: string, words: seq<string>, w: string)
    ensures Read(Escaped(s) + "'" + rest, true, words, Some(w)) == Read(rest, false, words, Some(w + s))
  {
    if s == "" {
      assert Escaped(s) + "'" + rest == "'" + rest;
      assert ("'" + rest)[1..] == rest && w + s == w;
    } else {
      var tail := Escaped(s[1..]) + "'" + rest;
      assert w + [s[0]] + s[1..] == w + s;
      ReadEscaped(s[1..], rest, words, w + [s[0]]);
      if s[0] == '\'' {
        assert Escaped(s) + "'" + rest == "'\\''" + tail;
        ReadApostrophe(tail, words, w);
      } else {
        assert Escaped(s) + "'" + rest == [s[0]] + tail;
        assert ([s[0]] + tail)[1..] == tail;
      }
    }
  }

  /** Wherever it stands, a quoted string adds exactly itself to the current word. */
  lemma QuoteIsOnePiece(s: string, rest: string, words: seq<string>, cur: Option<string>)
    ensures Read(Quote(s) + rest, false, words, cur) == Read(rest, false, words, Some(cur.GetOr("") + s))
  {
    var t := Quote(s) + rest;
    assert t[0] == '\'' && t[1..] == Escaped(s) + "'" + rest;
    ReadEscaped(s, rest, words, cur.GetOr(""));
  }

  lemma EscapeIsOnePiece(s: string, rest: string, words: seq<string>, cur: Option<string>)
    ensures Read(ShellEscape(s) + rest, false, words, cur) == Read(rest, false, words, Some(cur.GetOr("") + s))
  {
    if s != "" && forall i :: 0 <= i < |s| ==> Safe(s[i]) {
      ReadOrdinary(s, rest, words, cur);
    } else {
      QuoteIsOnePiece(s, rest, words, cur);
    }
  }

  /** A quoted or escaped string is one command of one word, the string itself. */
  lemma OneWord(s: string)
    ensures Shell(Quote(s)) == Some([[s]])
    ensures Shell(ShellEscape(s)) == Some([[s]])
  {
    QuoteIsOnePiece(s, "", [], None);
    EscapeIsOnePiece(s, "", [], None);
    assert Quote(s) + "" == Quote(s) && ShellEscape(s) + "" == ShellEscape(s) && "" + s == s;
    assert Closed([], Some(s)) == [s];
  }

  /** A line of escaped arguments is one command whose words are the arguments. */
  lemma ArgumentsSurvive(args: seq<string>)
    requires args != []
    ensures Shell(CommandLine(args)) == Some([args])
  {
    LineAfter(args, []);
    assert [] + args == args;
  }

  lemma {:induction false} LineAfter(args: seq<string>, before: seq<string>)
    requires args != []
    ensures Read(CommandLine(args), false, before, None) == Some([before + args])
  {
    hide Read, ShellEscape;
    var a := args[0];
    assert "" + a == a;
    if |args| == 1 {
      EscapeIsOnePiece(a, "", before, None);
      ReadEnd(before, a);
      assert ShellEscape(a) + "" == ShellEscape(a) && before + [a] == before + args;
    } else {
      var more := CommandLine(args[1..]);
      assert CommandLine(args) == ShellEscape(a) + (" " + more);
      EscapeIsOnePiece(a, " " + more, before, None);
      ReadSpace(more, before, a);
      LineAfter(args[1..], before + [a]);
      assert before + [a] + args[1..] == before + args;
    }
  }

  lemma ReadEnd(words: seq<string>, w: string)
    ensures Read("", false, words, Some(w)) == Some([words + [w]])
  {
  }

  lemma ReadSpace(rest: string, words: seq<string>, w: string)
    ensures Read(" " + rest, false, words, Some(w)) == Read(rest, false, words + [w], None)
  {
    assert (" " + rest)[0] == ' ' && (" " + rest)[1..] == rest;
  }

  /** The commands that set every secret. */
  function Exports(entries: seq<Secret>): seq<seq<string>> {
    if entries == [] then []
    else [["export", entries[0].name + "=" + entries[0].value]] + Exports(entries[1..])
  }

  lemma ExportRead(e: Secret, rest: string)
    requires Ordinary(e.name)
    ensures Read(ExportLine(e) + rest, false, [], None) == Read(rest, false, ["export"], Some(e.name + "=" + e.value))
  {
    var q := Quote(e.value) + rest;
    var assignment := e.name + "=";
    var t := " " + (assignment + q);
    assert ExportLine(e) + rest == "export" + t;
    ReadOrdinary("export", t, [], None);
    assert "" + "export" == "export" && t[1..] == assignment + q;
    assert Closed([], Some("export")) == ["export"];
    ReadOrdinary(assignment, q, ["export"], None);
    assert "" + assignment == assignment;
    QuoteIsOnePiece(e.value, rest, ["export"], Some(assignment));
  }

  /** Sourcing the secrets file runs one `export` for each secret, with exactly its value, in order. */
  lemma {:induction false} SecretsSurvive(entries: seq<Secret>)
    requires forall i :: 0 <= i < |entries| ==> Ordinary(entries[i].name)
    ensures Shell(SecretsBody(entries)) == Some(Exports(entries))
  {
    if entries != [] {
      var e := entries[0];
      var command := ["export", e.name + "=" + e.value];
      assert Closed(["export"], Some(command[1])) == command;
      if |entries| == 1 {
        ExportRead(e, "");
        assert ExportLine(e) + "" == ExportLine(e);
        assert Exports(entries) == [command];
      } else {
        var tail := "\n" + SecretsBody(entries[1..]);
        assert SecretsBody(entries) == ExportLine(e) + tail;
        ExportRead(e, tail);
        assert tail[1..] == SecretsBody(entries[1..]);
        SecretsSurvive(entries[1..]);
        assert Command(command) == [command];
      }
    }
  }
}
