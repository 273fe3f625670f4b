/** The sliding tail of a job's output that the watcher keeps in memory and writes to the database. */
module JobWatcher {
  import opened Text

  /** Length of every line and the separator after it. */
  function Bytes(lines: seq<string>): nat {
    if lines == [] then 0 else |lines[0]| + 1 + Bytes(lines[1..])
  }

  lemma {:induction false} BytesAppend(lines: seq<string>, line: string)
    ensures Bytes(lines + [line]) == Bytes(lines) + |line| + 1
  {
    if lines == [] {
      assert lines + [line] == [line] && [line][1..] == [];
    } else {
      assert (lines + [line])[1..] == lines[1..] + [line];
      BytesAppend(lines[1..], line);
    }
  }

  /* ---------- what is kept ---------- */

  /** The loop of `pushCaptured`: drop from the front while over the cap and more than one is left. */
  function Trimmed(lines: seq<string>, cap: nat): seq<string> {
    if Bytes(lines) > cap && |lines| > 1 then Trimmed(lines[1..], cap) else lines
  }

  /** The captured lines after pushing `lines` one by one. */
  function Captured(lines: seq<string>, cap: nat): seq<string> {
    if lines == [] then [] else Trimmed(Captured(Init(lines), cap) + [Last(lines)], cap)
  }

  lemma CapturedNext(lines: seq<string>, line: string, cap: nat)
    ensures Captured(lines + [line], cap) == Trimmed(Captured(lines, cap) + [line], cap)
  {
    assert Init(lines + [line]) == lines;
  }

  /** The lines of `all` from position `k` on may be kept. */
  predicate Fits(all: seq<string>, k: nat, cap: nat)
    requires k <= |all|
  {
    Bytes(all[k..]) <= cap
  }

  /** `kept` is the longest suffix of `all` that fits, or the last line alone when not even that one fits. */
  predicate LongestTail(kept: seq<string>, all: seq<string>, cap: nat) {
    && |kept| <= |all| && kept == all[|all| - |kept|..]
    && (all != [] ==> kept != [])
    && (|kept| > 1 ==> Bytes(kept) <= cap)
    && forall k | 0 <= k < |all| - |kept| :: !Fits(all, k, cap)
  }

  lemma BytesSuffix(all: seq<string>, k: nat, line: string)
    requires k <= |all|
    ensures Bytes((all + [line])[k..]) == Bytes(all[k..]) + |line| + 1
  {
    assert (all + [line])[k..] == all[k..] + [line];
    BytesAppend(all[k..], line);
  }

  lemma {:induction false} TrimmedIsLongest(lines: seq<string>, all: seq<string>, cap: nat)
    requires lines != [] && |lines| <= |all| && lines == all[|all| - |lines|..]
    requires forall k | 0 <= k < |all| - |lines| :: !Fits(all, k, cap)
    ensures LongestTail(Trimmed(lines, cap), all, cap)
  {
    if Bytes(lines) > cap && |lines| > 1 {
      assert !Fits(all, |all| - |lines|, cap);
      assert lines[1..] == all[|all| - |lines[1..]|..];
      TrimmedIsLongest(lines[1..], all, cap);
    }
  }

  /** One more line: whatever did not fit before does not fit now. */
  lemma TailExtends(kept: seq<string>, before: seq<string>, line: string, cap: nat)
    requires LongestTail(kept, before, cap)
    ensures LongestTail(Trimmed(kept + [line], cap), before + [line], cap)
  {
    var all := before + [line];
    hide Bytes, Trimmed;
    forall k | 0 <= k < |all| - |kept + [line]| ensures !Fits(all, k, cap) {
      assert !Fits(before, k, cap);
      BytesSuffix(before, k, line);
    }
    assert kept + [line] == all[|all| - |kept + [line]|..];
    TrimmedIsLongest(kept + [line], all, cap);
  }

  /** After any pushes, the tail kept is the longest one that fits. */
  lemma {:induction false} CapturedIsLongest(all: seq<string>, cap: nat)
    ensures LongestTail(Captured(all, cap), all, cap)
  {
    if all != [] {
      hide Trimmed, LongestTail, Bytes;
      CapturedIsLongest(Init(all), cap);
      TailExtends(Captured(Init(all), cap), Init(all), Last(all), cap);
      assert all == Init(all) + [Last(all)];
    }
  }

  /** The longest tail is determined, so dropping lines one by one loses nothing that would have fit. */
  lemma LongestTailUnique(x: seq<string>, y: seq<string>, all: seq<string>, cap: nat)
    requires LongestTail(x, all, cap) && LongestTail(y, all, cap)
    ensures x == y
  {
    assert |x| > |y| ==> !Fits(all, |all| - |x|, cap);
    assert |y| > |x| ==> !Fits(all, |all| - |y|, cap);
  }

  lemma {:induction false} JoinLength(lines: seq<string>)
    requires lines != []
    ensures |Join(lines)| + 1 == Bytes(lines)
  {
    if |lines| > 1 {
      JoinLength(lines[1..]);
    }
  }

  /** What is written to the database is shorter than the cap, unless it is one line longer than that. */
  lemma FlushFits(all: seq<string>, cap: nat)
    requires all != []
    ensures var output := Join(Captured(all, cap));
      |output| < cap || Captured(all, cap) == [Last(all)]
  {
    CapturedIsLongest(all, cap);
    var kept := Captured(all, cap);
    JoinLength(kept);
    if |kept| == 1 {
      assert kept == all[|all| - 1..];
    }
  }

  /* ---------- the watcher ---------- */

  /** `captured` and `capturedBytes`, with the cap (256 KiB in the watcher) as a parameter. */
  class Watcher {
    const cap: nat
    var captured: seq<string>
    var capturedBytes: int
    var dirty: bool
    ghost var pushed: seq<string>

    ghost predicate Valid()
      reads this
    {
      captured == Captured(pushed, cap) && capturedBytes == Bytes(captured)
    }

    constructor (cap: nat)
      ensures Valid() && this.cap == cap && pushed == [] && !dirty
    {
      this.cap, captured, capturedBytes, dirty, pushed := cap, [], 0, false, [];
    }

    method PushCaptured(line: string)
      requires Valid()
      modifies this
      ensures Valid() && pushed == old(pushed) + [line] && dirty
      ensures LongestTail(captured, pushed, cap)
    {
      BytesAppend(captured, line);
      CapturedNext(pushed, line, cap);
      hide Captured, LongestTail;
      captured := captured + [line];
      capturedBytes := capturedBytes + |line| + 1;
      pushed := pushed + [line];
      while capturedBytes > cap && |captured| > 1
        invariant capturedBytes == Bytes(captured)
        invariant Trimmed(captured, cap) == Captured(pushed, cap)
        invariant pushed == old(pushed) + [line]
        decreases |captured|
      {
        var dropped := captured[0];
        captured := captured[1..];
        capturedBytes := capturedBytes - (|dropped| + 1);
      }
      dirty := true;
      CapturedIsLongest(pushed, cap);
    }

    /** One tick of the flush timer: the text to store, if anything was pushed since the last. */
    method Flush() returns (written: bool, output: string)
      requires Valid()
      modifies this
      ensures Valid() && pushed == old(pushed) && captured == old(captured) && !dirty
      ensures written == old(dirty)
      ensures written ==> output == Join(Captured(pushed, cap))
    {
      output := "";
      written := dirty;
      if dirty {
        dirty := false;
        output := Join(captured);
      }
    }
  }
}
