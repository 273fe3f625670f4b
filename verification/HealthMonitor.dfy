/**
 * One poll of a cluster: counting its queue, bringing job rows in line with it in two passes, and
 * reporting the controller's ups and downs.
 */
module HealthMonitor {
  import opened Text
  import opened Wrappers

  /* ---------- counting the queue ---------- */

  /** A line of the queue listing cut at its bars; `pendingSeconds` is the age the clock gives it. */
  datatype Line = Line(id: string, state: string, reason: string, user: string, pendingSeconds: nat)

  datatype Reason = Reason(reason: string, count: nat)

  datatype Queue = Queue(
    stateById: map<string, string>,
    pendingCount: nat,
    runningCount: nat,
    heldCount: nat,
    oldest: nat,
    byReason: seq<Reason>)

  const NO_JOBS := Queue(map[], 0, 0, 0, 0, [])

  /** `toUpperCase` on the ASCII names that Slurm uses. */
  function Upper(s: string): string {
    seq(|s|, i requires 0 <= i < |s| => if 'a' <= s[i] <= 'z' then (s[i] as int - 32) as char else s[i])
  }

  predicate Counts(l: Line) {
    l.id != "" && l.state != ""
  }

  function StateOf(l: Line): string {
    Upper(Trim(l.state))
  }

  predicate IsPending(l: Line) {
    Counts(l) && StateOf(l) == "PENDING"
  }

  predicate IsRunning(l: Line) {
    Counts(l) && StateOf(l) == "RUNNING"
  }

  function ReasonOf(l: Line): string {
    var r := Trim(l.reason);
    if r == "" then "Unknown" else r
  }

  predicate IsHeld(r: string) {
    r == "JobHeldUser" || r == "JobHeldAdmin"
  }

  /** The reasons of the pending lines, one each. */
  function PendingReasons(lines: seq<Line>): seq<string> {
    if lines == [] then []
    else PendingReasons(Init(lines)) + if IsPending(Last(lines)) then [ReasonOf(Last(lines))] else []
  }

  function CountOf(s: seq<string>, x: string): nat {
    if s == [] then 0 else CountOf(Init(s), x) + if Last(s) == x then 1 else 0
  }

  function RunningLines(lines: seq<Line>): nat {
    if lines == [] then 0 else RunningLines(Init(lines)) + if IsRunning(Last(lines)) then 1 else 0
  }

  /** The state the last line of each job reports. */
  function States(lines: seq<Line>): map<string, string> {
    if lines == [] then map[]
    else if Counts(Last(lines)) then States(Init(lines))[Trim(Last(lines).id) := StateOf(Last(lines))]
    else States(Init(lines))
  }

  function Oldest(lines: seq<Line>): nat {
    if lines == [] then 0
    else if IsPending(Last(lines)) && Last(lines).pendingSeconds > Oldest(Init(lines)) then Last(lines).pendingSeconds
    else Oldest(Init(lines))
  }

  function Total(rs: seq<Reason>): nat {
    if rs == [] then 0 else Total(Init(rs)) + Last(rs).count
  }

  predicate Listed(rs: seq<Reason>, r: string) {
    exists i | 0 <= i < |rs| :: rs[i].reason == r
  }

  /** One entry for every reason that occurs, with its number of occurrences. */
  predicate Tallied(rs: seq<Reason>, reasons: seq<string>) {
    && (forall i, j :: 0 <= i < j < |rs| ==> rs[i].reason != rs[j].reason)
    && (forall i :: 0 <= i < |rs| ==> rs[i].count == CountOf(reasons, rs[i].reason))
    && (forall i :: 0 <= i < |reasons| ==> Listed(rs, reasons[i]))
    && Total(rs) == |reasons|
  }

  /** `pendingByReason.set(r, (pendingByReason.get(r) ?? 0) + 1)`; a new reason goes to the end. */
  method Increment(rs: seq<Reason>, r: string, ghost reasons: seq<string>) returns (out: seq<Reason>)
    requires Tallied(rs, reasons)
    ensures Tallied(out, reasons + [r])
  {
    hide Tallied;
    for i := 0 to |rs|
      invariant forall k :: 0 <= k < i ==> rs[k].reason != r
    {
      if rs[i].reason == r {
        TallyBumped(rs, reasons, i);
        return rs[i := Reason(r, rs[i].count + 1)];
      }
    }
    TallyExtended(rs, reasons, r);
    out := rs + [Reason(r, 1)];
  }

  lemma CountNext(s: seq<string>, r: string)
    ensures forall x :: CountOf(s + [r], x) == CountOf(s, x) + if x == r then 1 else 0
  {
    assert Init(s + [r]) == s && Last(s + [r]) == r;
  }

  /** Every reason listed before is listed after, when the names only grow. */
  lemma StillListed(rs: seq<Reason>, out: seq<Reason>, reasons: seq<string>)
    requires Tallied(rs, reasons) && |rs| <= |out| && forall k :: 0 <= k < |rs| ==> out[k].reason == rs[k].reason
    ensures forall i :: 0 <= i < |reasons| ==> Listed(out, reasons[i])
  {
    forall i | 0 <= i < |reasons| ensures Listed(out, reasons[i]) {
      assert Listed(rs, reasons[i]);
      var m :| 0 <= m < |rs| && rs[m].reason == reasons[i];
      assert out[m].reason == reasons[i];
    }
  }

  lemma TallyBumped(rs: seq<Reason>, reasons: seq<string>, i: nat)
    requires Tallied(rs, reasons) && i < |rs|
    ensures Tallied(rs[i := Reason(rs[i].reason, rs[i].count + 1)], reasons + [rs[i].reason])
  {
    var r := rs[i].reason;
    var out := rs[i := Reason(r, rs[i].count + 1)];
    CountNext(reasons, r);
    TotalBumped(rs, i);
    StillListed(rs, out, reasons);
    assert out[i].reason == r;
    hide CountOf, Total;
    assert Listed(out, r);
  }

  lemma TallyExtended(rs: seq<Reason>, reasons: seq<string>, r: string)
    requires Tallied(rs, reasons) && forall k :: 0 <= k < |rs| ==> rs[k].reason != r
    ensures Tallied(rs + [Reason(r, 1)], reasons + [r])
  {
    var out := rs + [Reason(r, 1)];
    CountNext(reasons, r);
    NotListed(rs, reasons, r);
    StillListed(rs, out, reasons);
    assert Init(out) == rs && Last(out) == Reason(r, 1);
    assert Total(out) == Total(rs) + 1;
    hide CountOf, Total;
    assert out[|rs|].reason == r;
    assert Listed(out, r);
  }

  lemma {:induction false} TotalBumped(rs: seq<Reason>, i: nat)
    requires i < |rs|
    ensures Total(rs[i := Reason(rs[i].reason, rs[i].count + 1)]) == Total(rs) + 1
  {
    var out := rs[i := Reason(rs[i].reason, rs[i].count + 1)];
    if i == |rs| - 1 {
      assert Init(out) == Init(rs);
    } else {
      assert Init(out) == Init(rs)[i := Reason(rs[i].reason, rs[i].count + 1)];
      TotalBumped(Init(rs), i);
    }
  }

  lemma {:induction false} CountedOccurs(s: seq<string>, x: string)
    requires CountOf(s, x) > 0
    ensures x in s
  {
    if Last(s) != x {
      CountedOccurs(Init(s), x);
    }
  }

  lemma NotListed(rs: seq<Reason>, reasons: seq<string>, r: string)
    requires Tallied(rs, reasons) && forall k :: 0 <= k < |rs| ==> rs[k].reason != r
    ensures CountOf(reasons, r) == 0
  {
    assert !Listed(rs, r);
    if CountOf(reasons, r) > 0 {
      CountedOccurs(reasons, r);
    }
  }

  /** The counters are what the listing says. */
  predicate Counted(q: Queue, lines: seq<Line>) {
    var reasons := PendingReasons(lines);
    && q.stateById == States(lines)
    && q.pendingCount == |reasons|
    && q.runningCount == RunningLines(lines)
    && q.heldCount == CountOf(reasons, "JobHeldUser") + CountOf(reasons, "JobHeldAdmin")
    && q.oldest == Oldest(lines)
    && Tallied(q.byReason, reasons)
  }

  /** Whatever the listing, the counts by reason add up to the pending jobs, the held ones among them. */
  method CountQueue(lines: seq<Line>) returns (q: Queue)
    ensures Counted(q, lines)
    ensures Total(q.byReason) == q.pendingCount && q.heldCount <= q.pendingCount
  {
    hide Counts, StateOf, ReasonOf, Tallied, Trim, PendingReasons, CountOf, RunningLines, States, Oldest;
    var stateById: map<string, string> := map[];
    var byReason: seq<Reason> := [];
    var pendingCount, runningCount, heldCount, oldest := 0, 0, 0, 0;
    EmptyTally();
    assert lines[..0] == [];
    for i := 0 to |lines|
      invariant Counted(Queue(stateById, pendingCount, runningCount, heldCount, oldest, byReason), lines[..i])
    {
      var line := lines[i];
      assert lines[..i + 1] == lines[..i] + [line];
      NextLine(lines[..i], line);
      ghost var reasons := PendingReasons(lines[..i]);
      if !Counts(line) {
        continue;
      }
      var st := StateOf(line);
      stateById := stateById[Trim(line.id) := st];
      if st == "RUNNING" {
        runningCount := runningCount + 1;
      }
      if st == "PENDING" {
        var rsn := ReasonOf(line);
        CountNext(reasons, rsn);
        pendingCount := pendingCount + 1;
        byReason := Increment(byReason, rsn, reasons);
        if line.pendingSeconds > oldest {
          oldest := line.pendingSeconds;
        }
        if IsHeld(rsn) {
          heldCount := heldCount + 1;
        }
      }
    }
    assert lines[..|lines|] == lines;
    q := Queue(stateById, pendingCount, runningCount, heldCount, oldest, byReason);
    TalliedTotal(byReason, PendingReasons(lines));
    TwoCounts(PendingReasons(lines), "JobHeldUser", "JobHeldAdmin");
  }

  /** How many lines of the listing are like this. */
  ghost function Matching(lines: seq<Line>, p: Line -> bool): nat {
    if lines == [] then 0 else Matching(Init(lines), p) + if p(Last(lines)) then 1 else 0
  }

  /** The line is there, and its state column, trimmed and in upper case, says this. */
  predicate Says(l: Line, state: string) {
    l.id != "" && l.state != "" && Upper(Trim(l.state)) == state
  }

  /** Its reason column, trimmed, says this; an empty one counts as `Unknown`. */
  predicate Reads(l: Line, reason: string) {
    if Trim(l.reason) == "" then reason == "Unknown" else Trim(l.reason) == reason
  }

  lemma {:induction false} FiguresMean(lines: seq<Line>, x: string)
    ensures |PendingReasons(lines)| == Matching(lines, l => Says(l, "PENDING"))
    ensures RunningLines(lines) == Matching(lines, l => Says(l, "RUNNING"))
    ensures CountOf(PendingReasons(lines), x) == Matching(lines, l => Says(l, "PENDING") && Reads(l, x))
    ensures forall i :: 0 <= i < |lines| && Says(lines[i], "PENDING") ==> lines[i].pendingSeconds <= Oldest(lines)
    ensures Oldest(lines) == 0
      || exists i | 0 <= i < |lines| :: Says(lines[i], "PENDING") && lines[i].pendingSeconds == Oldest(lines)
  {
    if lines != [] {
      FiguresMean(Init(lines), x);
      LastFigures(lines, x);
    }
  }

  lemma LastFigures(lines: seq<Line>, x: string)
    requires lines != []
    ensures var reasons, l := PendingReasons(Init(lines)), Last(lines);
      && |PendingReasons(lines)| == |reasons| + (if Says(l, "PENDING") then 1 else 0)
      && CountOf(PendingReasons(lines), x) ==
           CountOf(reasons, x) + (if Says(l, "PENDING") && Reads(l, x) then 1 else 0)
    ensures Oldest(lines) == if Says(Last(lines), "PENDING") && Last(lines).pendingSeconds > Oldest(Init(lines))
                             then Last(lines).pendingSeconds else Oldest(Init(lines))
    ensures forall i :: 0 <= i < |lines| - 1 ==> lines[i] == Init(lines)[i]
  {
    hide Upper, Trim;
    var reasons := PendingReasons(Init(lines));
    CountNext(reasons, ReasonOf(Last(lines)));
    assert reasons + [] == reasons;
  }

  /** The line is there, and no later one is about the same job. */
  predicate LastOfJob(lines: seq<Line>, i: nat)
    requires i < |lines|
  {
    && lines[i].id != "" && lines[i].state != ""
    && forall k :: i < k < |lines| && lines[k].id != "" && lines[k].state != "" ==>
         Trim(lines[k].id) != Trim(lines[i].id)
  }

  lemma {:induction false} StateReported(lines: seq<Line>, id: string, i: nat)
    requires i < |lines| && LastOfJob(lines, i) && Trim(lines[i].id) == id
    ensures id in States(lines) && States(lines)[id] == Upper(Trim(lines[i].state))
  {
    hide Upper, Trim;
    if i < |lines| - 1 {
      StateReported(Init(lines), id, i);
    }
  }

  /**
   * What the counters mean, line by line: pending and running jobs by their state column, the held and
   * each reason by the reason column of pending ones, the age of the oldest of these, and for every job
   * the state its last line reports.
   */
  lemma CountersMean(q: Queue, lines: seq<Line>, r: nat, i: nat)
    requires Counted(q, lines) && r < |q.byReason|
    ensures q.pendingCount == Matching(lines, l => Says(l, "PENDING"))
    ensures q.runningCount == Matching(lines, l => Says(l, "RUNNING"))
    ensures q.heldCount == Matching(lines, l => Says(l, "PENDING") && Reads(l, "JobHeldUser"))
                           + Matching(lines, l => Says(l, "PENDING") && Reads(l, "JobHeldAdmin"))
    ensures var reason := q.byReason[r].reason;
      q.byReason[r].count == Matching(lines, l => Says(l, "PENDING") && Reads(l, reason))
    ensures forall k :: 0 <= k < |lines| && Says(lines[k], "PENDING") ==> lines[k].pendingSeconds <= q.oldest
    ensures q.oldest == 0
      || exists k | 0 <= k < |lines| :: Says(lines[k], "PENDING") && lines[k].pendingSeconds == q.oldest
    ensures i < |lines| && LastOfJob(lines, i)
      ==> Trim(lines[i].id) in q.stateById && q.stateById[Trim(lines[i].id)] == Upper(Trim(lines[i].state))
  {
    hide Says, Reads, PendingReasons, RunningLines, Oldest, States, Matching, Upper, Trim;
    FiguresMean(lines, "JobHeldUser");
    FiguresMean(lines, "JobHeldAdmin");
    FiguresMean(lines, q.byReason[r].reason);
    if i < |lines| && LastOfJob(lines, i) {
      StateReported(lines, Trim(lines[i].id), i);
    }
  }

  lemma TalliedTotal(rs: seq<Reason>, reasons: seq<string>)
    requires Tallied(rs, reasons)
    ensures Total(rs) == |reasons|
  {
  }

  lemma EmptyTally()
    ensures Counted(NO_JOBS, [])
  {
  }

  /** What one more line adds to every figure. */
  lemma NextLine(lines: seq<Line>, l: Line)
    ensures var pending, running := Counts(l) && StateOf(l) == "PENDING", Counts(l) && StateOf(l) == "RUNNING";
      && PendingReasons(lines + [l]) ==
        (if pending then PendingReasons(lines) + [ReasonOf(l)] else PendingReasons(lines))
      && RunningLines(lines + [l]) == RunningLines(lines) + (if running then 1 else 0)
      && States(lines + [l]) == (if Counts(l) then States(lines)[Trim(l.id) := StateOf(l)] else States(lines))
      && Oldest(lines + [l]) ==
        (if pending && l.pendingSeconds > Oldest(lines) then l.pendingSeconds else Oldest(lines))
  {
    hide Counts, StateOf, ReasonOf;
    assert Init(lines + [l]) == lines && Last(lines + [l]) == l;
    assert PendingReasons(lines) + [] == PendingReasons(lines);
  }

  lemma {:induction false} TwoCounts(s: seq<string>, x: string, y: string)
    requires x != y
    ensures CountOf(s, x) + CountOf(s, y) <= |s|
  {
    if s != [] {
      TwoCounts(Init(s), x, y);
    }
  }

  /* ---------- rows against the queue ---------- */

  datatype Status = PENDING | RUNNING | COMPLETED | FAILED | CANCELLED

  datatype Row = Row(slurm: Option<int>, status: Status, exitCode: Option<int>)

  type RowId = nat

  type Squeue = map<string, string>

  predicate InFlight(r: Row) {
    r.slurm.Some? && (r.status == PENDING || r.status == RUNNING)
  }

  predicate Live(state: string) {
    state == "RUNNING" || state == "PENDING"
  }

  /** The queue has an entry under exactly this number; an empty state counts as none. */
  predicate Shown(q: Squeue, n: int) {
    Numeral(n) in q && q[Numeral(n)] != ""
  }

  /** `parseInt(sid, 10)` of a trimmed id. */
  function ParseInt(s: string): Option<int> {
    if s != "" && s[0] == '+' then
      var r := DigitRun(s[1..]);
      if r == "" then None else Some(DigitsValue(r))
    else ParseInteger(s)
  }

  /** Some id that starts with this number is running or pending. */
  predicate LiveNumber(q: Squeue, n: int) {
    exists k | k in q :: Live(q[k]) && ParseInt(k) == Some(n)
  }

  /** The status as the listing spells it. */
  function StatusName(s: Status): string {
    match s
    case PENDING => "PENDING"
    case RUNNING => "RUNNING"
    case COMPLETED => "COMPLETED"
    case FAILED => "FAILED"
    case CANCELLED => "CANCELLED"
  }

  /** The status a state in the listing stands for, if any. */
  function Mapped(state: string): Option<Status> {
    if state == "RUNNING" then Some(RUNNING) else if state == "PENDING" then Some(PENDING) else None
  }

  predicate Terminal(s: Status) {
    s == COMPLETED || s == FAILED || s == CANCELLED
  }

  /** First pass: what the queue no longer shows is complete, what it shows is as it says. */
  function FirstPass(r: Row, q: Squeue): Row {
    if !InFlight(r) then r
    else
      var n := r.slurm.value;
      if !Shown(q, n) then r.(status := COMPLETED)
      else if q[Numeral(n)] == "RUNNING" then r.(status := RUNNING)
      else if q[Numeral(n)] == "PENDING" then r.(status := PENDING)
      else r
  }

  predicate Stale(r: Row, q: Squeue) {
    r.slurm.Some? && r.status != PENDING && r.status != RUNNING && LiveNumber(q, r.slurm.value)
  }

  /** Second pass: a finished row whose number is live is revived. */
  function SecondPass(r: Row, q: Squeue): Row {
    if !Stale(r, q) then r
    else
      var sid := Numeral(r.slurm.value);
      r.(status := if sid in q && q[sid] == "RUNNING" then RUNNING else PENDING, exitCode := None)
  }

  function PollRow(r: Row, q: Squeue): Row {
    SecondPass(FirstPass(r, q), q)
  }

  /** The poll writes to this row at least once. */
  predicate Touched(r: Row, q: Squeue) {
    FirstPass(r, q) != r || SecondPass(FirstPass(r, q), q) != FirstPass(r, q)
  }

  function Poll(rows: map<RowId, Row>, q: Squeue): map<RowId, Row> {
    map id | id in rows :: PollRow(rows[id], q)
  }

  function FirstPoll(rows: map<RowId, Row>, q: Squeue): map<RowId, Row> {
    map id | id in rows :: FirstPass(rows[id], q)
  }

  function SecondPoll(rows: map<RowId, Row>, q: Squeue): map<RowId, Row> {
    map id | id in rows :: SecondPass(rows[id], q)
  }

  /** The first loop under way: the rows still to do are as before, the others have had their turn. */
  ghost predicate Synced(before: map<RowId, Row>, now: map<RowId, Row>, todo: set<RowId>, touched: set<RowId>,
                         q: Squeue)
  {
    && now.Keys == before.Keys && touched <= before.Keys
    && forall id :: id in before ==>
         if id in todo then now[id] == before[id] && id !in touched
         else now[id] == FirstPass(before[id], q) && (id in touched <==> FirstPass(before[id], q) != before[id])
  }

  lemma SyncBegins(before: map<RowId, Row>, todo: set<RowId>, q: Squeue)
    requires forall id :: id in todo <==> id in before && InFlight(before[id])
    ensures Synced(before, before, todo, {}, q)
  {
    hide FirstPass, InFlight;
    forall id | id in before && id !in todo ensures FirstPass(before[id], q) == before[id] {
      OnlyInFlight(before[id], q);
    }
  }

  lemma SyncedAt(before: map<RowId, Row>, now: map<RowId, Row>, todo: set<RowId>, touched: set<RowId>, q: Squeue,
                 id: RowId)
    requires Synced(before, now, todo, touched, q) && id in todo && id in before
    ensures id in now && now[id] == before[id]
  {
  }

  lemma SyncedNext(before: map<RowId, Row>, now: map<RowId, Row>, todo: set<RowId>, touched: set<RowId>, q: Squeue,
                   id: RowId)
    requires Synced(before, now, todo, touched, q) && id in todo && id in before
    ensures Synced(before, now[id := FirstPass(before[id], q)], todo - {id},
                   if FirstPass(before[id], q) != before[id] then touched + {id} else touched, q)
  {
    hide FirstPass;
  }

  lemma SyncEnds(before: map<RowId, Row>, now: map<RowId, Row>, touched: set<RowId>, q: Squeue)
    requires Synced(before, now, {}, touched, q)
    ensures now == FirstPoll(before, q)
    ensures touched == set id | id in before && FirstPass(before[id], q) != before[id]
  {
    hide FirstPass;
  }

  /** The job rows of one cluster. */
  class JobTable {
    var rows: map<RowId, Row>

    constructor (rows: map<RowId, Row>)
      ensures this.rows == rows
    {
      this.rows := rows;
    }

    /** One turn of the first loop: the row takes the state its own id has in the listing. */
    method SyncRow(id: RowId, q: Squeue) returns (written: bool)
      requires id in rows && InFlight(rows[id])
      modifies this
      ensures rows == old(rows)[id := FirstPass(old(rows)[id], q)]
      ensures written <==> FirstPass(old(rows)[id], q) != old(rows)[id]
    {
      hide Numeral;
      var row := rows[id];
      var sid := Numeral(row.slurm.value);
      written := false;
      if sid !in q || q[sid] == "" {
        rows := rows[id := row.(status := COMPLETED)];
        written := true;
      } else if q[sid] != StatusName(row.status) {
        var mapped := Mapped(q[sid]);
        if mapped.Some? && mapped.value != row.status {
          rows := rows[id := row.(status := mapped.value)];
          written := true;
        }
      }
    }

    /** The rows of the first query, in whatever order they come; `touched` are those written. */
    method SyncInFlight(q: Squeue) returns (touched: set<RowId>)
      modifies this
      ensures rows == FirstPoll(old(rows), q)
      ensures touched == set id | id in old(rows) && FirstPass(old(rows)[id], q) != old(rows)[id]
    {
      hide FirstPass, InFlight, Synced;
      ghost var before := rows;
      touched := {};
      var todo := set id | id in rows && InFlight(rows[id]);
      SyncBegins(before, todo, q);
      while todo != {}
        invariant forall id :: id in todo ==> id in before && InFlight(before[id])
        invariant Synced(before, rows, todo, touched, q)
        decreases |todo|
      {
        var id :| id in todo;
        ghost var now, done := rows, touched;
        SyncedAt(before, now, todo, touched, q, id);
        var written := SyncRow(id, q);
        if written {
          touched := touched + {id};
        }
        SyncedNext(before, now, todo, done, q, id);
        todo := todo - {id};
      }
      SyncEnds(before, rows, touched, q);
    }

    /** The rows of the second query, run on what the first pass left. */
    method ReviveStale(q: Squeue) returns (touched: set<RowId>)
      modifies this
      ensures rows == SecondPoll(old(rows), q)
      ensures touched == set id | id in old(rows) && Stale(old(rows)[id], q)
    {
      hide Numeral, ParseInt;
      var before := rows;
      touched := {};
      var liveIds := set k | k in q && Live(q[k]) && ParseInt(k).Some? :: ParseInt(k).value;
      var stale := set id | id in rows && Terminal(rows[id].status) && rows[id].slurm.Some?
        && rows[id].slurm.value in liveIds;
      forall id | id in rows ensures id in stale <==> Stale(rows[id], q) {
      }
      var todo := stale;
      while todo != {}
        invariant todo <= stale && rows.Keys == before.Keys
        invariant forall id :: id in before ==>
          rows[id] == if id in stale - todo then SecondPass(before[id], q) else before[id]
        invariant touched <= stale && forall id :: id in stale ==> (id in touched <==> id !in todo)
        decreases |todo|
      {
        var id :| id in todo;
        var row := rows[id];
        var sid := Numeral(row.slurm.value);
        var mapped := if sid in q && q[sid] == "RUNNING" then RUNNING else PENDING;
        rows := rows[id := row.(status := mapped, exitCode := None)];
        touched := touched + {id};
        todo := todo - {id};
      }
      assert touched == stale;
      forall id | id in before ensures rows[id] == SecondPass(before[id], q) {
        StaleIsWritten(before[id], q);
      }
      assert rows == SecondPoll(before, q);
    }

    /** Both passes. */
    method Reconcile(q: Squeue) returns (touched: set<RowId>)
      modifies this
      ensures rows == Poll(old(rows), q)
      ensures touched == set id | id in old(rows) && Touched(old(rows)[id], q)
    {
      hide FirstPass, SecondPass, Stale;
      var first := SyncInFlight(q);
      ghost var middle := rows;
      var second := ReviveStale(q);
      touched := first + second;
      forall id | id in middle ensures Stale(middle[id], q) <==> SecondPass(middle[id], q) != middle[id] {
        StaleIsWritten(middle[id], q);
      }
    }
  }

  lemma OnlyInFlight(r: Row, q: Squeue)
    ensures FirstPass(r, q) != r ==> InFlight(r)
  {
  }

  lemma StaleIsWritten(r: Row, q: Squeue)
    ensures Stale(r, q) <==> SecondPass(r, q) != r
  {
  }

  /* ---------- settling ---------- */

  /** The number is live under another id, as a task of an array is, but not under its own. */
  predicate Phantom(r: Row, q: Squeue) {
    r.slurm.Some? && LiveNumber(q, r.slurm.value) && !Shown(q, r.slurm.value)
  }

  /** Polling the same queue again leaves every row as it is. */
  lemma PollIdempotent(r: Row, q: Squeue)
    ensures PollRow(PollRow(r, q), q) == PollRow(r, q)
  {
    hide LiveNumber, Numeral;
    ShownIsLive(r, q);
  }

  lemma ShownIsLive(r: Row, q: Squeue)
    ensures r.slurm.Some? && Shown(q, r.slurm.value) && Live(q[Numeral(r.slurm.value)]) ==> LiveNumber(q, r.slurm.value)
  {
    if r.slurm.Some? {
      var n := r.slurm.value;
      NumeralRoundTrip(n);
      NumeralUnsigned(n);
      assert ParseInt(Numeral(n)) == Some(n);
    }
  }

  lemma NumeralUnsigned(n: int)
    ensures Numeral(n) != "" && Numeral(n)[0] != '+'
  {
    if n >= 0 {
      assert Decimal(n)[0] in Decimal(n);
    }
  }

  /** It also writes to none of them, except exactly to those whose number is live under another id only. */
  lemma SecondPollIsQuietExactly(r: Row, q: Squeue)
    ensures Touched(PollRow(r, q), q) <==> Phantom(r, q)
  {
    hide LiveNumber, Numeral;
    ShownIsLive(r, q);
  }

  ghost predicate PlainIds(q: Squeue) {
    forall k :: k in q ==> exists n: int :: k == Numeral(n)
  }

  /** With plain numbers for ids, a number is live only under its own id. */
  lemma PlainLive(q: Squeue, n: int)
    requires PlainIds(q) && LiveNumber(q, n)
    ensures Shown(q, n) && Live(q[Numeral(n)])
  {
    var k :| k in q && Live(q[k]) && ParseInt(k) == Some(n);
    var m: int :| k == Numeral(m);
    NumeralRoundTrip(m);
    NumeralUnsigned(m);
  }

  /** So there is no such row, and polling again writes nothing. */
  lemma PlainIdsAreQuiet(r: Row, q: Squeue)
    requires PlainIds(q)
    ensures !Phantom(r, q) && !Touched(PollRow(r, q), q)
  {
    hide LiveNumber, Numeral, Shown, FirstPass, SecondPass;
    if r.slurm.Some? && LiveNumber(q, r.slurm.value) {
      PlainLive(q, r.slurm.value);
    }
    SecondPollIsQuietExactly(r, q);
  }

  /** State names are read in any case. */
  lemma UpperNames()
    ensures Upper("pending") == "PENDING" && Upper("Running") == "RUNNING" && Upper("COMPLETED") == "COMPLETED"
  {
  }

  lemma PlusRead(s: string)
    requires s != "" && IsDigit(s[0])
    ensures ParseInt(s) == ParseInt("+" + s) == Some(DigitsValue(DigitRun(s)))
  {
    assert ("+" + s)[1..] == s;
    hide DigitsValue;
  }

  lemma DigitsFirst(n: nat, rest: string)
    requires rest == "" || !IsDigit(rest[0])
    ensures DigitRun(Decimal(n) + rest) == Decimal(n)
  {
    var digits := Decimal(n);
    hide Decimal;
    if rest == "" {
      assert digits + rest == digits;
      DigitRunAll(digits);
    } else {
      DigitRunStops(digits, rest);
    }
  }

  /** A number is read up to the first character that is no digit, behind a plus sign as well. */
  lemma NumbersRead(n: nat, rest: string)
    requires rest == "" || !IsDigit(rest[0])
    ensures ParseInt(Decimal(n) + rest) == Some(n) == ParseInt("+" + (Decimal(n) + rest))
  {
    var digits := Decimal(n);
    DecimalValue(n);
    DigitsFirst(n, rest);
    assert digits[0] in digits;
    hide Decimal, DigitRun, ParseInt, DigitsValue;
    assert (digits + rest)[0] == digits[0];
    PlusRead(digits + rest);
  }

  /** An entry with an empty state counts as none: the row of such a job is completed. */
  lemma EmptyStateCompletes(r: Row, q: Squeue)
    requires r.slurm.Some? && (r.status == PENDING || r.status == RUNNING)
    requires Numeral(r.slurm.value) in q && q[Numeral(r.slurm.value)] == ""
    ensures FirstPass(r, q) == r.(status := COMPLETED)
  {
  }

  /** What the state shown for a job makes of its row's status. */
  function Followed(status: Status, shown: Option<string>): Status {
    match shown
    case None => if status == PENDING || status == RUNNING then COMPLETED else status
    case Some(st) => if st == "RUNNING" then RUNNING else if st == "PENDING" then PENDING else status
  }

  /**
   * With plain ids the two passes are one function of the row's status and the job's state; a revived
   * row loses its exit code.
   */
  lemma TwoPassesAreOne(r: Row, q: Squeue)
    requires PlainIds(q) && r.slurm.Some?
    ensures var n := r.slurm.value;
      var after := PollRow(r, q);
      && after.slurm == r.slurm
      && after.status == Followed(r.status, if Shown(q, n) then Some(q[Numeral(n)]) else None)
      && after.exitCode == if !InFlight(r) && after.status != r.status then None else r.exitCode
  {
    hide PlainIds, LiveNumber, Numeral;
    ShownIsLive(r, q);
    if LiveNumber(q, r.slurm.value) {
      PlainLive(q, r.slurm.value);
    }
  }

  /**
   * A running array task keeps its array's row moving: every poll marks the row complete, revives it
   * as pending, and leaves it to the next poll to do the same.
   */
  lemma ArrayTaskFlaps(n: nat, task: nat, status: Status, exitCode: Option<int>)
    ensures var q := map[Decimal(n) + "_" + Decimal(task) := "RUNNING"];
      var r := Row(Some(n), status, exitCode);
      && Phantom(r, q)
      && PollRow(r, q).status == PENDING
      && FirstPass(PollRow(r, q), q).status == COMPLETED
  {
    var key := Decimal(n) + "_" + Decimal(task);
    var q := map[key := "RUNNING"];
    var r := Row(Some(n), status, exitCode);
    ArrayIdParses(n, Decimal(task));
    assert key in q && Live(q[key]) && ParseInt(key) == Some(n as int);
    assert key[|Decimal(n)|] == '_' && Numeral(n) == Decimal(n);
    assert Numeral(n) !in q;
  }

  lemma ArrayIdParses(n: nat, rest: string)
    ensures ParseInt(Decimal(n) + "_" + rest) == Some(n)
  {
    var key := Decimal(n) + ("_" + rest);
    assert Decimal(n) + "_" + rest == key;
    DigitRunStops(Decimal(n), "_" + rest);
    DecimalValue(n);
    assert key[0] == Decimal(n)[0] && Decimal(n)[0] in Decimal(n);
  }

  lemma {:induction false} DigitRunStops(digits: string, rest: string)
    requires forall c :: c in digits ==> IsDigit(c)
    requires rest != "" && !IsDigit(rest[0])
    ensures DigitRun(digits + rest) == digits
  {
    if digits == "" {
      assert digits + rest == rest;
    } else {
      assert (digits + rest)[0] == digits[0] && digits[0] in digits;
      assert (digits + rest)[1..] == digits[1..] + rest;
      DigitRunStops(digits[1..], rest);
      assert digits == [digits[0]] + digits[1..];
    }
  }

  /**
   * A poll that gets no listing marks every job in flight complete. The next good poll puts a row
   * where it would have been exactly when its job is gone, running or pending by then; a job in any
   * other state stays wrongly complete.
   */
  lemma MissedPollHealsExactly(r: Row, q: Squeue)
    requires InFlight(r)
    ensures FirstPass(r, map[]).status == COMPLETED
    ensures var n := r.slurm.value;
      PollRow(PollRow(r, map[]), q).status == PollRow(r, q).status
      <==> !Shown(q, n) || Live(q[Numeral(n)]) || (LiveNumber(q, n) && r.status == PENDING)
  {
    hide Numeral, ParseInt;
    ShownIsLive(r, q);
    assert !LiveNumber(map[], r.slurm.value);
    hide LiveNumber;
    assert PollRow(r, map[]) == r.(status := COMPLETED);
  }

  /* ---------- the controller ---------- */

  datatype Alert = Unreachable | Recovered

  /** What a poll that finds the controller `up` reports, given the previous poll's finding. */
  function AlertOf(prev: Option<bool>, up: bool): seq<Alert> {
    if prev == Some(true) && !up then [Unreachable]
    else if prev == Some(false) && up then [Recovered]
    else []
  }

  function LastSeen(ups: seq<bool>): Option<bool> {
    if ups == [] then None else Some(Last(ups))
  }

  function Alerts(ups: seq<bool>): seq<Alert> {
    if ups == [] then [] else Alerts(Init(ups)) + AlertOf(LastSeen(Init(ups)), Last(ups))
  }

  lemma AlertsNext(ups: seq<bool>, up: bool)
    ensures Alerts(ups + [up]) == Alerts(ups) + AlertOf(LastSeen(ups), up)
    ensures LastSeen(ups + [up]) == Some(up)
  {
    assert Init(ups + [up]) == ups && Last(ups + [up]) == up;
  }

  /** Over any run of polls the two alerts alternate, beginning with what the first poll allows. */
  lemma {:induction false} AlertsAlternate(ups: seq<bool>)
    ensures forall i :: 0 <= i < |Alerts(ups)| - 1 ==> Alerts(ups)[i] != Alerts(ups)[i + 1]
    ensures Alerts(ups) != [] ==> Alerts(ups)[0] == if ups[0] then Unreachable else Recovered
    ensures Alerts(ups) == [] ==> forall i :: 0 <= i < |ups| ==> ups[i] == ups[0]
    ensures Alerts(ups) != [] ==> Last(Alerts(ups)) == if Last(ups) then Recovered else Unreachable
  {
    if |ups| == 1 {
      assert Init(ups) == [];
    } else if |ups| > 1 {
      var front := Init(ups);
      AlertsAlternate(front);
      assert ups[0] == front[0];
      hide Alerts, Init;
      assert Alerts(ups) == Alerts(front) + AlertOf(Some(Last(front)), Last(ups));
      assert ups == front + [Last(ups)];
    }
  }

  datatype Badge = ACTIVE | DEGRADED

  class Controller {
    var seen: Option<bool>
    var badge: Badge
    var trail: seq<Alert>
    ghost var ups: seq<bool>

    ghost predicate Valid()
      reads this
    {
      seen == LastSeen(ups) && trail == Alerts(ups)
    }

    constructor (badge: Badge)
      ensures Valid() && ups == [] && this.badge == badge
    {
      seen, this.badge, trail, ups := None, badge, [], [];
    }

    /** The part of a poll that concerns the controller; the badge always ends up telling its state. */
    method Observe(up: bool)
      requires Valid()
      modifies this
      ensures Valid() && ups == old(ups) + [up]
      ensures badge == if up then ACTIVE else DEGRADED
    {
      if seen.Some? {
        if seen.value && !up {
          trail := trail + [Unreachable];
        } else if !seen.value && up {
          trail := trail + [Recovered];
        }
      }
      if !up && badge == ACTIVE {
        badge := DEGRADED;
      } else if up && badge == DEGRADED {
        badge := ACTIVE;
      }
      AlertsNext(ups, up);
      hide Alerts, LastSeen;
      assert trail + [] == trail;
      seen := Some(up);
      ups := ups + [up];
    }
  }
}
