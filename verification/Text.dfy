/**
 The few string operations the TypeScript sources lean on: cutting at newlines and joining
 again, trimming, searching for a marker, and decimal numerals.
 */
module Text {
  import opened Wrappers

  /* ---------- cutting and joining at newlines ---------- */

  /** A single line: no newline inside. */
  predicate Plain(s: string) {
    '\n' !in s
  }

  /** Put one character in front of a cut text. */
  function Prepend(c: char, parts: seq<string>): (r: seq<string>)
    requires |parts| >= 1
    ensures |r| >= 1
  {
    if c == '\n' then [""] + parts else [[c] + parts[0]] + parts[1..]
  }

  /** `s.split("\n")`. */
  function Split(s: string): (parts: seq<string>)
    ensures |parts| >= 1
  {
    if s == "" then [""] else Prepend(s[0], Split(s[1..]))
  }

  lemma {:induction false} SplitParts(s: string)
    ensures forall i :: 0 <= i < |Split(s)| ==> Plain(Split(s)[i])
  {
    if s != "" {
      SplitParts(s[1..]);
    }
  }

  /** `parts.join("\n")`. */
  function Join(parts: seq<string>): string {
    if |parts| == 0 then ""
    else if |parts| == 1 then parts[0]
    else parts[0] + "\n" + Join(parts[1..])
  }

  function Concat(parts: seq<string>): string {
    if parts == [] then "" else parts[0] + Concat(parts[1..])
  }

  function Init<T>(s: seq<T>): (r: seq<T>)
    requires |s| > 0
    ensures |r| == |s| - 1
  {
    s[..|s| - 1]
  }

  function Last<T>(s: seq<T>): T
    requires |s| > 0
  {
    s[|s| - 1]
  }

  lemma ConcatOne(a: string)
    ensures Concat([a]) == a
  {
    assert [a][1..] == [] && a + Concat([]) == a;
  }

  lemma ConcatTwo(a: string, b: string)
    ensures Concat([a, b]) == a + b
  {
    assert [a, b][1..] == [b];
    ConcatOne(b);
  }

  lemma {:induction false} PlainConcat(parts: seq<string>)
    requires forall i :: 0 <= i < |parts| ==> Plain(parts[i])
    ensures Plain(Concat(parts))
  {
    if parts != [] {
      PlainConcat(parts[1..]);
    }
  }

  lemma {:induction false} SplitPlain(s: string)
    requires Plain(s)
    ensures Split(s) == [s]
  {
    if s != "" {
      SplitPlain(s[1..]);
      assert s == [s[0]] + s[1..];
    }
  }

  lemma PrependAppend(c: char, r: seq<string>, b: string)
    requires |r| >= 1
    ensures Prepend(c, Init(r) + Split(Last(r) + b)) == Init(Prepend(c, r)) + Split(Last(Prepend(c, r)) + b)
  {
    var p := Prepend(c, r);
    if |r| == 1 && c != '\n' {
      var t := Last(r) + b;
      assert p == [[c] + Last(r)] && Init(p) == [] && Init(r) == [];
      assert Last(p) + b == [c] + t;
      SplitCons(c, t);
    } else {
      assert Last(p) == Last(r);
      PrependInit(c, r, Split(Last(r) + b));
    }
  }

  lemma SplitCons(c: char, t: string)
    ensures Split([c] + t) == Prepend(c, Split(t))
  {
    assert ([c] + t)[1..] == t;
  }

  lemma PrependInit(c: char, r: seq<string>, s: seq<string>)
    requires |r| >= 2 || (|r| == 1 && c == '\n')
    requires |s| >= 1
    ensures Prepend(c, Init(r) + s) == Init(Prepend(c, r)) + s
  {
    if c == '\n' {
      InitCons("", r);
      assert [""] + (Init(r) + s) == [""] + Init(r) + s;
    } else {
      var x, t := [c] + r[0], r[1..];
      assert r == [r[0]] + t;
      InitCons(r[0], t);
      InitCons(x, t);
      hide Init;
      assert Init(r) + s == [r[0]] + (Init(t) + s);
      assert (Init(r) + s)[1..] == Init(t) + s;
      assert [x] + (Init(t) + s) == [x] + Init(t) + s;
    }
  }

  lemma InitCons<T>(x: T, t: seq<T>)
    requires t != []
    ensures Init([x] + t) == [x] + Init(t)
  {
  }

  /** A cut stream can be cut again: the last, unfinished part is all that later text can touch. */
  lemma {:induction false} SplitAppend(a: string, b: string)
    ensures Split(a + b) == Init(Split(a)) + Split(Last(Split(a)) + b)
  {
    if a == "" {
      assert a + b == b && Init(Split(a)) == [] && Last(Split(a)) + b == b;
    } else {
      assert (a + b)[1..] == a[1..] + b;
      SplitAppend(a[1..], b);
      PrependAppend(a[0], Split(a[1..]), b);
    }
  }

  lemma {:induction false} SplitAtNewline(a: string, b: string)
    ensures Split(a + "\n" + b) == Split(a) + Split(b)
  {
    if a == "" {
      assert a + "\n" + b == "\n" + b;
      assert ("\n" + b)[1..] == b;
    } else {
      var s := a + "\n" + b;
      assert s[1..] == a[1..] + "\n" + b;
      SplitAtNewline(a[1..], b);
      PrependConcat(a[0], Split(a[1..]), Split(b));
    }
  }

  lemma PrependConcat(c: char, r: seq<string>, q: seq<string>)
    requires |r| >= 1
    ensures Prepend(c, r + q) == Prepend(c, r) + q
  {
    assert (r + q)[1..] == r[1..] + q;
  }

  lemma {:induction false} JoinSplit(s: string)
    ensures Join(Split(s)) == s
  {
    if s != "" {
      JoinSplit(s[1..]);
      JoinPrepend(s[0], Split(s[1..]));
      assert s == [s[0]] + s[1..];
    }
  }

  lemma JoinPrepend(c: char, parts: seq<string>)
    requires |parts| >= 1
    ensures Join(Prepend(c, parts)) == [c] + Join(parts)
  {
    if c == '\n' {
      JoinBlankFirst(parts);
    } else {
      var first, rest := parts[0], parts[1..];
      assert parts == [first] + rest;
      assert Prepend(c, parts) == [[c] + first] + rest;
      hide Join, Prepend;
      JoinLonger([c], first, rest);
    }
  }

  lemma JoinBlankFirst(parts: seq<string>)
    requires |parts| >= 1
    ensures Join([""] + parts) == "\n" + Join(parts)
  {
    JoinCons("", parts);
    assert "" + "\n" == "\n";
  }

  lemma JoinLonger(x: string, first: string, rest: seq<string>)
    ensures Join([x + first] + rest) == x + Join([first] + rest)
  {
    if rest == [] {
      assert [x + first] + rest == [x + first] && [first] + rest == [first];
    } else {
      JoinCons(first, rest);
      JoinCons(x + first, rest);
      hide Join;
      var tail := "\n" + Join(rest);
      assert first + "\n" + Join(rest) == first + tail;
      assert x + first + "\n" + Join(rest) == x + first + tail;
      assert x + (first + tail) == x + first + tail;
    }
  }

  lemma JoinCons(first: string, rest: seq<string>)
    requires rest != []
    ensures Join([first] + rest) == first + "\n" + Join(rest)
  {
    assert ([first] + rest)[1..] == rest;
  }

  lemma {:induction false} SplitJoin(parts: seq<string>)
    requires |parts| > 0
    requires forall i :: 0 <= i < |parts| ==> Plain(parts[i])
    ensures Split(Join(parts)) == parts
  {
    if |parts| == 1 {
      SplitPlain(parts[0]);
    } else {
      SplitJoin(parts[1..]);
      SplitAtNewline(parts[0], Join(parts[1..]));
      SplitPlain(parts[0]);
      assert parts == [parts[0]] + parts[1..];
    }
  }

  lemma {:induction false} JoinAppend(a: seq<string>, b: seq<string>)
    requires |a| > 0 && |b| > 0
    ensures Join(a + b) == Join(a) + "\n" + Join(b)
  {
    if |a| == 1 {
      assert (a + b)[1..] == b;
    } else {
      assert (a + b)[1..] == a[1..] + b;
      JoinAppend(a[1..], b);
      assert a[0] + "\n" + (Join(a[1..]) + "\n" + Join(b)) == (a[0] + "\n" + Join(a[1..])) + "\n" + Join(b);
    }
  }

  /** Joining pieces that are themselves several lines long gives the lines of all the pieces. */
  lemma SplitJoinAny(a: seq<string>, p: string, b: seq<string>)
    requires forall i :: 0 <= i < |a| ==> Plain(a[i])
    requires forall i :: 0 <= i < |b| ==> Plain(b[i])
    ensures Split(Join(a + ([p] + b))) == a + (Split(p) + b)
  {
    hide Split, Join, Plain;
    SplitJoinTail(p, b);
    if a == [] {
      assert a + ([p] + b) == [p] + b && a + (Split(p) + b) == Split(p) + b;
    } else {
      JoinAppend(a, [p] + b);
      SplitAtNewline(Join(a), Join([p] + b));
      SplitJoin(a);
    }
  }

  lemma SplitJoinTail(p: string, b: seq<string>)
    requires forall i :: 0 <= i < |b| ==> Plain(b[i])
    ensures Split(Join([p] + b)) == Split(p) + b
  {
    if b == [] {
      assert [p] + b == [p];
      assert Split(p) + b == Split(p);
    } else {
      JoinAppend([p], b);
      SplitAtNewline(p, Join(b));
      SplitJoin(b);
    }
  }

  /** `s.indexOf("\n")`. */
  function NewlineIndex(s: string): (i: int)
    ensures -1 <= i < |s|
    ensures i == -1 ==> '\n' !in s
    ensures i >= 0 ==> s[i] == '\n' && '\n' !in s[..i]
  {
    if s == "" then -1
    else if s[0] == '\n' then 0
    else
      var r := NewlineIndex(s[1..]);
      if r == -1 then -1
      else
        assert s[..r + 1] == [s[0]] + s[1..][..r];
        r + 1
  }

  /* ---------- trimming and searching ---------- */

  /** White space and line terminators of ECMAScript, as removed by `trim()`. */
  predicate IsSpace(c: char) {
    || '\t' <= c <= '\r' || c == ' ' || c == '\U{00A0}' || c == '\U{1680}'
    || '\U{2000}' <= c <= '\U{200A}' || c == '\U{2028}' || c == '\U{2029}'
    || c == '\U{202F}' || c == '\U{205F}' || c == '\U{3000}' || c == '\U{FEFF}'
  }

  function TrimStart(s: string): (r: string)
    ensures |r| <= |s|
    ensures r == "" || !IsSpace(r[0])
    ensures forall c :: c in s && !IsSpace(c) ==> c in r
    ensures forall c :: c in r ==> c in s
    ensures s != "" && !IsSpace(s[0]) ==> r == s
  {
    if s != "" && IsSpace(s[0]) then TrimStart(s[1..]) else s
  }

  function TrimEnd(s: string): (r: string)
    ensures |r| <= |s|
    ensures r <= s
    ensures forall c :: c in s && !IsSpace(c) ==> c in r
    ensures s != "" && !IsSpace(s[|s| - 1]) ==> r == s
  {
    if s != "" && IsSpace(s[|s| - 1]) then
      assert s == s[..|s| - 1] + [s[|s| - 1]];
      TrimEnd(s[..|s| - 1])
    else s
  }

  /** `s.trim()`. */
  function Trim(s: string): (r: string)
    ensures forall c :: c in s && !IsSpace(c) ==> c in r
    ensures s != "" && !IsSpace(s[0]) && !IsSpace(s[|s| - 1]) ==> r == s
  {
    TrimEnd(TrimStart(s))
  }

  predicate Blank(s: string) {
    forall i :: 0 <= i < |s| ==> IsSpace(s[i])
  }

  lemma {:induction false} TrimStartIs(s: string) returns (before: string)
    ensures Blank(before) && s == before + TrimStart(s)
  {
    if s != "" && IsSpace(s[0]) {
      var more := TrimStartIs(s[1..]);
      before := [s[0]] + more;
      var t := TrimStart(s);
      hide TrimStart, IsSpace;
      assert s == [s[0]] + (more + t);
    } else {
      before := "";
    }
  }

  lemma {:induction false} TrimEndIs(s: string) returns (after: string)
    ensures Blank(after) && s == TrimEnd(s) + after
    ensures TrimEnd(s) == "" || !IsSpace(TrimEnd(s)[|TrimEnd(s)| - 1])
  {
    if s != "" && IsSpace(s[|s| - 1]) {
      var more := TrimEndIs(s[..|s| - 1]);
      after := more + [s[|s| - 1]];
      var t := TrimEnd(s);
      hide TrimEnd, IsSpace;
      assert s == (t + more) + [s[|s| - 1]];
    } else {
      after := "";
    }
  }

  /** Trimming takes blanks off both ends, and all of them. */
  lemma TrimIs(s: string) returns (before: string, after: string)
    ensures Blank(before) && Blank(after) && s == before + Trim(s) + after
    ensures Trim(s) != "" ==> !IsSpace(Trim(s)[0]) && !IsSpace(Trim(s)[|Trim(s)| - 1])
  {
    var start := TrimStart(s);
    before := TrimStartIs(s);
    after := TrimEndIs(start);
    var t := TrimEnd(start);
    assert t <= start;
    hide TrimStart, TrimEnd, IsSpace, Blank;
    assert before + (t + after) == before + t + after;
  }

  predicate StartsWith(s: string, p: string) {
    p <= s
  }

  predicate OccursAt(s: string, p: string, i: int) {
    0 <= i && i + |p| <= |s| && s[i..i + |p|] == p
  }

  /** `s.includes(p)`. */
  predicate Contains(s: string, p: string) {
    exists i | 0 <= i <= |s| :: OccursAt(s, p, i)
  }

  /* ---------- decimal numerals ---------- */

  predicate IsDigit(c: char) {
    '0' <= c <= '9'
  }

  function Decimal(n: nat): (s: string)
    ensures |s| > 0
    ensures forall c :: c in s ==> IsDigit(c)
  {
    var d := [('0' as int + n % 10) as char];
    if n < 10 then d else Decimal(n / 10) + d
  }

  /** The numeral of a possibly negative integer. */
  function Numeral(n: int): string {
    if n < 0 then "-" + Decimal(-n) else Decimal(n)
  }

  /** The longest run of digits at the front of `s`. */
  function DigitRun(s: string): (r: string)
    ensures r <= s
    ensures forall c :: c in r ==> IsDigit(c)
    ensures |r| == |s| || !IsDigit(s[|r|])
  {
    if s != "" && IsDigit(s[0]) then
      assert s == [s[0]] + s[1..];
      [s[0]] + DigitRun(s[1..])
    else ""
  }

  function DigitsValue(s: string): int {
    if s == "" then 0
    else DigitsValue(s[..|s| - 1]) * 10 + (s[|s| - 1] as int - '0' as int)
  }

  /** What `-?\d+` captures at the front of `s`, as `parseInt` reads it. */
  function ParseInteger(s: string): Option<int> {
    if s != "" && s[0] == '-' then
      var r := DigitRun(s[1..]);
      if r == "" then None else Some(-DigitsValue(r))
    else
      var r := DigitRun(s);
      if r == "" then None else Some(DigitsValue(r))
  }

  lemma {:induction false} DecimalValue(n: nat)
    ensures DigitsValue(Decimal(n)) == n
  {
    if n >= 10 {
      DecimalValue(n / 10);
      var s := Decimal(n);
      assert s[..|s| - 1] == Decimal(n / 10);
    }
  }

  lemma {:induction false} DigitRunAll(s: string)
    requires forall c :: c in s ==> IsDigit(c)
    ensures DigitRun(s) == s
  {
    if s != "" {
      assert s == [s[0]] + s[1..];
      DigitRunAll(s[1..]);
    }
  }

  lemma NumeralRoundTrip(n: int)
    ensures ParseInteger(Numeral(n)) == Some(n)
  {
    if n < 0 {
      assert ("-" + Decimal(-n))[1..] == Decimal(-n);
      DigitRunAll(Decimal(-n));
      DecimalValue(-n);
    } else {
      assert Decimal(n)[0] in Decimal(n);
      DigitRunAll(Decimal(n));
      DecimalValue(n);
    }
  }
}
