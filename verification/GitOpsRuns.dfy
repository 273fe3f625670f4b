/**
 * The reconciler over any number of passes (web/lib/gitops-jobs.ts): what a submission leaves in the
 * rows and in Slurm, and that the loop never has two of its jobs live for one key.
 */
module GitOpsRuns {
  import opened Wrappers
  import opened GitOpsModel
  import opened GitOpsReconcile

  /* ---------- one turn ---------- */

  /** No live job has a number its cluster has not handed out. */
  predicate LiveDrawn(w: World) {
    forall s | s in w.live :: s.number < NextNumber(w.slurms, s.cluster)
  }

  predicate Carries(r: Row, m: Manifest) {
    r.sourceRef == Some(m.relPath + "@sha256:" + m.contentHash)
  }

  /**
   * What a submission leaves: when the job starts, a running row that carries the manifest's reference
   * and the number of the one job that became live; when `sbatch` fails, a failed one without a number;
   * when it is refused, no row.
   */
  predicate Leaves(l: Launch, w: World) {
    && w.live == l.live + l.added && l.live !! l.added
    && match l.outcome
       case Started =>
         && l.key in w.owned && w.owned[l.key].status == RUNNING && Carries(w.owned[l.key], l.manifest)
         && w.owned[l.key].slurm.Some?
         && l.added == {SlurmJob(l.key.cluster, w.owned[l.key].slurm.value)}
       case SbatchFailed(leaked) =>
         && l.key in w.owned && w.owned[l.key].status == FAILED && Carries(w.owned[l.key], l.manifest)
         && w.owned[l.key].slurm == None
         && |l.added| == if leaked then 1 else 0
       case Refused => l.key !in w.owned && l.added == {}
  }

  ghost predicate NumbersGrow(before: World, after: World) {
    forall c: ClusterId :: NextNumber(before.slurms, c) <= NextNumber(after.slurms, c)
  }

  lemma SubmitLeaves(env: Env, w: World, k: Key, previous: Option<nat>, m: Manifest)
    requires LiveDrawn(w) && k !in w.owned
    ensures var l, w' := LaunchOf(env, w, k, previous, m), Submit(env, w, k, SourceRef(m));
      && Leaves(l, w') && LiveDrawn(w') && NumbersGrow(w, w')
      && (forall s :: s in l.added ==> s == SlurmJob(k.cluster, NextNumber(w.slurms, k.cluster)))
  {
    var s := SlurmJob(k.cluster, NextNumber(w.slurms, k.cluster));
    assert s !in w.live;
    OneMore(w.live, s);
    SubmitDrawn(env, w, k, SourceRef(m));
    CarriesIs(m);
    hide LiveDrawn, NextNumber, SourceRef, NumbersGrow, Carries;
    var l, w' := LaunchOf(env, w, k, previous, m), Submit(env, w, k, SourceRef(m));
    match env.submit(w.submits)
    case Refused =>
      assert l.added == {} && w'.live == w.live;
    case SbatchFailed(leaked) =>
      assert l.added == if leaked then {s} else {};
    case Started =>
      assert l.added == {s};
  }

  lemma SubmitDrawn(env: Env, w: World, k: Key, ref: string)
    requires LiveDrawn(w)
    ensures LiveDrawn(Submit(env, w, k, ref)) && NumbersGrow(w, Submit(env, w, k, ref))
  {
  }

  lemma CarriesIs(m: Manifest)
    ensures forall r: Row :: r.sourceRef == Some(SourceRef(m)) <==> Carries(r, m)
  {
  }

  lemma OneMore(live: set<SlurmJob>, s: SlurmJob)
    requires s !in live
    ensures (live + {s}) - live == {s} && live - live == {} && live + {} == live
  {
  }

  lemma CancelShrinks(env: Env, w: World, k: Key)
    requires k in w.owned
    ensures var w' := Cancel(env, w, k).0;
      && w'.live <= w.live && w'.slurms == w.slurms && w'.submits == w.submits
      && w'.owned.Keys == w.owned.Keys
      && forall j :: j in w.owned ==> w'.owned[j].slurm == w.owned[j].slurm
  {
  }

  /** How a turn is counted when it submits: as new, as a replacement, or as an error. */
  predicate Counted(before: Summary, l: Launch, isNew: bool, after: Summary) {
    if l.outcome == Started then
      && after.errors == before.errors
      && after.submitted == before.submitted + (if isNew then 1 else 0)
      && after.resubmitted == before.resubmitted + (if isNew then 0 else 1)
    else
      && after.errors == before.errors + [l.manifest.relPath]
      && after.submitted == before.submitted && after.resubmitted == before.resubmitted
  }

  /** The submission of a manifest for a key, and nothing else, has happened between these two states. */
  ghost predicate Submits(p: Pass, k: Key, m: Manifest, isNew: bool, r: Pass) {
    && |r.launches| == |p.launches| + 1 && p.launches <= r.launches
    && (var l := r.launches[|p.launches|];
        && l.key == k && l.manifest == m && l.live <= p.w.live
        && (forall s :: s in l.added ==> s == SlurmJob(k.cluster, NextNumber(p.w.slurms, k.cluster)))
        && Leaves(l, r.w) && Counted(p.sum, l, isNew, r.sum))
    && LiveDrawn(r.w) && NumbersGrow(p.w, r.w)
  }

  lemma NewSubmits(env: Env, p: Pass, k: Key, m: Manifest)
    requires LiveDrawn(p.w) && k !in p.w.owned
    ensures Submits(p, k, m, true, SubmitNew(env, p, k, m))
  {
    SubmitLeaves(env, p.w, k, None, m);
    LaunchIs(env, p.w, k, None, m);
    hide Submit, LaunchOf, LiveDrawn, Leaves, NextNumber;
  }

  lemma ReplaceSubmits(env: Env, p: Pass, k: Key, previous: Option<nat>, m: Manifest)
    requires LiveDrawn(p.w)
    ensures Submits(p, k, m, false, Replace(env, p, k, previous, m))
  {
    DropShrinks(p.w, k);
    SubmitLeaves(env, Drop(p.w, k), k, previous, m);
    LaunchIs(env, Drop(p.w, k), k, previous, m);
    hide Submit, LaunchOf, LiveDrawn, Leaves, NextNumber, Drop;
  }

  lemma ResubmitSubmits(env: Env, p: Pass, k: Key, m: Manifest)
    requires LiveDrawn(p.w) && k in p.w.owned && Launches(p, Resubmit(env, p, k, m))
    ensures Submits(p, k, m, false, Resubmit(env, p, k, m))
  {
    hide Cancel, Replace, Leaves, NextNumber;
    var previous := p.w.owned[k].slurm;
    if !Active(p.w.owned[k].status) {
      ReplaceSubmits(env, p, k, previous, m);
    } else {
      var w := Cancel(env, p.w, k).0;
      CancelShrinks(env, p.w, k);
      StillDrawn(p.w, w);
      ReplaceSubmits(env, p.(w := w, sum := p.sum.(cancelled := p.sum.cancelled + 1)), k, previous, m);
    }
  }

  /**
   * A turn that submits: its own manifest goes in, for the key it resolves to, and the rows, the live
   * jobs and the counters are as the outcome says.
   */
  lemma TurnSubmits(env: Env, conflicts: set<Key>, p: Pass, m: Manifest)
    requires LiveDrawn(p.w) && Launches(p, Handle(env, conflicts, p, m))
    ensures m.cluster in env.clusters && m.user in env.users
    ensures var r, k := Handle(env, conflicts, p, m), Key(env.clusters[m.cluster], m.name);
      k !in conflicts && Submits(p, k, m, k !in p.w.owned, r)
  {
    hide SubmitNew, Resubmit, Leaves, LiveDrawn, NextNumber;
    var k := KeyOf(env, m);
    var p1 := p.(seen := p.seen + {k});
    if k !in p.w.owned {
      NewSubmits(env, p1, k, m);
    } else {
      ResubmitSubmits(env, p1, k, m);
    }
  }

  lemma LaunchIs(env: Env, w: World, k: Key, previous: Option<nat>, m: Manifest)
    ensures var l := LaunchOf(env, w, k, previous, m);
      l.key == k && l.manifest == m && l.live == w.live && l.previous == previous
  {
  }

  lemma DropShrinks(w: World, k: Key)
    requires LiveDrawn(w)
    ensures LiveDrawn(Drop(w, k)) && k !in Drop(w, k).owned
    ensures Drop(w, k).live == w.live && Drop(w, k).slurms == w.slurms
  {
  }

  lemma StillDrawn(before: World, after: World)
    requires LiveDrawn(before) && after.live <= before.live && after.slurms == before.slurms
    ensures LiveDrawn(after)
  {
  }

  /** A turn that submits nothing only ever loses live jobs, and the rows keep the numbers they name. */
  lemma TurnWithout(env: Env, conflicts: set<Key>, p: Pass, m: Manifest)
    requires !Launches(p, Handle(env, conflicts, p, m))
    ensures var r := Handle(env, conflicts, p, m);
      && r.launches == p.launches && r.w.live <= p.w.live && r.w.slurms == p.w.slurms
      && r.w.owned.Keys == p.w.owned.Keys
      && forall j :: j in p.w.owned ==> r.w.owned[j].slurm == p.w.owned[j].slurm
  {
    hide Cancel, Submit, Drop, LaunchOf;
    if Resolvable(env, m) && KeyOf(env, m) in p.w.owned {
      CancelShrinks(env, p.w, KeyOf(env, m));
    }
  }

  /* ---------- what is counted, skipped and cancelled ---------- */

  /** How a turn is counted that submits nothing: skipped for a stated reason, up to date, or not cancelled. */
  lemma TurnWithoutCounts(env: Env, conflicts: set<Key>, p: Pass, m: Manifest)
    requires !Launches(p, Handle(env, conflicts, p, m))
    ensures var r := Handle(env, conflicts, p, m).sum;
      if m.cluster !in env.clusters then r == p.sum.(skipped := p.sum.skipped + [(m.relPath, ClusterNotFound)])
      else if m.user !in env.users then r == p.sum.(skipped := p.sum.skipped + [(m.relPath, UserNotFound)])
      else
        var k := Key(env.clusters[m.cluster], m.name);
        if k in conflicts then r == p.sum.(skipped := p.sum.skipped + [(m.relPath, NameConflict)])
        else
          k in p.w.owned &&
          if p.w.owned[k].sourceRef == Some(m.relPath + "@sha256:" + m.contentHash) then
            r == p.sum.(same := p.sum.same + 1)
          else r == p.sum.(errors := p.sum.errors + [m.relPath])
  {
    hide Cancel, Submit, Drop, LaunchOf;
  }

  /** A turn counts a cancel exactly when it goes on to replace a job that was active. */
  lemma TurnCancels(env: Env, conflicts: set<Key>, p: Pass, m: Manifest)
    ensures var r := Handle(env, conflicts, p, m);
      r.sum.cancelled == p.sum.cancelled +
        if Launches(p, r) && KeyOf(env, m) in p.w.owned && Active(p.w.owned[KeyOf(env, m)].status) then 1 else 0
  {
    hide Cancel, Submit, Drop, LaunchOf, SourceRef;
  }

  /** The removal pass counts every row that it drops. */
  lemma {:induction false} RemovalCancels(env: Env, p: Pass, listing: seq<Key>)
    ensures var r := RemoveAll(env, p, listing);
      r.sum.cancelled + |r.w.owned| == p.sum.cancelled + |p.w.owned|
  {
    if listing != [] {
      var before, k := RemoveAll(env, p, listing[..|listing| - 1]), listing[|listing| - 1];
      RemovalCancels(env, p, listing[..|listing| - 1]);
      if k in before.w.owned {
        CancelShrinks(env, before.w, k);
        SameSize(before.w.owned, Cancel(env, before.w, k).0.owned);
        OneLess(before.w, k);
        OneLess(Cancel(env, before.w, k).0, k);
      }
      hide Cancel, Drop;
    }
  }

  lemma SameSize(a: map<Key, Row>, b: map<Key, Row>)
    requires a.Keys == b.Keys
    ensures |a| == |b|
  {
    assert |a| == |a.Keys| && |b| == |b.Keys|;
  }

  lemma OneLess(w: World, k: Key)
    requires k in w.owned
    ensures |Drop(w, k).owned| + 1 == |w.owned|
  {
    assert Drop(w, k).owned.Keys == w.owned.Keys - {k};
    assert |Drop(w, k).owned| == |Drop(w, k).owned.Keys| && |w.owned| == |w.owned.Keys|;
  }

  /**
   * What a cancel does. Only to an SSH cluster, and only for a row that names a job, is anything sent;
   * unless that is denied, the job is gone. Success is reported, and the row marked, when nothing was
   * sent or the acknowledgement came back.
   */
  lemma CancelReports(env: Env, w: World, k: Key)
    requires k in w.owned
    ensures var (w', ok) := Cancel(env, w, k);
      var sent := k.cluster in env.ssh && w.owned[k].slurm.Some?;
      && w'.cancels == w.cancels + (if sent then 1 else 0)
      && w'.live == (if sent && env.cancel(w.cancels) != Denied
                     then w.live - {SlurmJob(k.cluster, w.owned[k].slurm.value)} else w.live)
      && (ok <==> !sent || env.cancel(w.cancels) == Acked)
      && w'.owned == (if ok then w.owned[k := w.owned[k].(status := CANCELLED)] else w.owned)
  {
  }

  /* ---------- row ids ---------- */

  /** No two rows have the same id, and the next id is none of theirs. */
  ghost predicate OwnIds(w: World) {
    && (forall k :: k in w.owned ==> w.owned[k].id < w.rows)
    && (forall j, k :: j in w.owned && k in w.owned && j != k ==> w.owned[j].id != w.owned[k].id)
  }

  lemma SubmitOwnIds(env: Env, w: World, k: Key, ref: string)
    requires OwnIds(w)
    ensures OwnIds(Submit(env, w, k, ref))
  {
  }

  lemma CancelOwnIds(env: Env, w: World, k: Key)
    requires OwnIds(w) && k in w.owned
    ensures OwnIds(Cancel(env, w, k).0) && OwnIds(Drop(Cancel(env, w, k).0, k)) && OwnIds(Drop(w, k))
  {
  }

  lemma TurnOwnIds(env: Env, conflicts: set<Key>, p: Pass, m: Manifest)
    requires OwnIds(p.w)
    ensures OwnIds(Handle(env, conflicts, p, m).w)
  {
    if Resolvable(env, m) {
      var k := KeyOf(env, m);
      SubmitOwnIds(env, p.w, k, SourceRef(m));
      if k in p.w.owned {
        CancelOwnIds(env, p.w, k);
        SubmitOwnIds(env, Drop(p.w, k), k, SourceRef(m));
        SubmitOwnIds(env, Drop(Cancel(env, p.w, k).0, k), k, SourceRef(m));
      }
      hide OwnIds, Submit, Cancel, Drop, LaunchOf;
    }
  }

  /** A pass never gives two rows one id, whatever the cluster answers. */
  lemma {:induction false} LoopOwnIds(env: Env, conflicts: set<Key>, p: Pass, ms: seq<Manifest>)
    requires OwnIds(p.w)
    ensures OwnIds(HandleAll(env, conflicts, p, ms).w)
  {
    hide OwnIds, Handle;
    if ms != [] {
      LoopOwnIds(env, conflicts, p, ms[..|ms| - 1]);
      TurnOwnIds(env, conflicts, HandleAll(env, conflicts, p, ms[..|ms| - 1]), ms[|ms| - 1]);
    }
  }

  lemma {:induction false} RemovalOwnIds(env: Env, p: Pass, listing: seq<Key>)
    requires OwnIds(p.w)
    ensures OwnIds(RemoveAll(env, p, listing).w)
  {
    if listing != [] {
      var before, k := RemoveAll(env, p, listing[..|listing| - 1]), listing[|listing| - 1];
      RemovalOwnIds(env, p, listing[..|listing| - 1]);
      if k in before.w.owned {
        CancelOwnIds(env, before.w, k);
      }
      hide OwnIds, Cancel, Drop;
    }
  }

  lemma PassOwnIds(env: Env, w: World, files: seq<File>, conflicts: set<Key>, listing: seq<Key>)
    requires OwnIds(w)
    ensures OwnIds(Reconciled(env, w, files, conflicts, listing).w)
  {
    hide OwnIds;
    LoopOwnIds(env, conflicts, Pass(w, ScanSummary(env, files), {}, []), Parsed(env, files));
    RemovalOwnIds(env, Looped(env, w, files, conflicts), listing);
  }

  /* ---------- which files are manifests ---------- */

  /** Files whose name ends in `.yaml` or `.yml` count. */
  lemma YamlExactly(path: string)
    ensures IsYaml(path) <==> exists stem :: path == stem + ".yaml" || path == stem + ".yml"
  {
    if IsYaml(path) {
      if |path| >= 5 && path[|path| - 5..] == ".yaml" {
        assert path == path[..|path| - 5] + ".yaml";
      } else {
        assert path == path[..|path| - 4] + ".yml";
      }
    }
    if stem :| path == stem + ".yaml" || path == stem + ".yml" {
      assert path == stem + ".yaml" ==> path[|path| - 5..] == ".yaml";
      assert path == stem + ".yml" ==> path[|path| - 4..] == ".yml";
    }
  }

  /** What one more file adds to the scan: nothing, a manifest, or an entry with the reason it is none. */
  lemma ScanNext(env: Env, files: seq<File>, f: File)
    ensures var was, now := ScanSummary(env, files), ScanSummary(env, files + [f]);
      var ms := Parsed(env, files + [f]);
      if !IsYaml(f.path) then now == was && ms == Parsed(env, files)
      else
        && now.scanned == was.scanned + 1
        && (var r := ParseFile(env, f);
            if r.Ok? then ms == Parsed(env, files) + [r.value] && now.skipped == was.skipped
            else ms == Parsed(env, files) && now.skipped == was.skipped + [(f.path, BadManifest(r.error))])
  {
    hide ParseFile;
    assert (files + [f])[..|files|] == files;
    assert Parsed(env, files) + [] == Parsed(env, files);
  }

  predicate Given(field: Option<string>) {
    field.Some? && field.value != ""
  }

  /**
   * A document is a manifest exactly when it is of kind `Job` and has all five fields, none empty; the
   * manifest then has these, with the path and the hash of the file.
   */
  lemma ManifestExactly(env: Env, f: File)
    ensures var doc, r := env.load(f.body), ParseFile(env, f);
      && (r.Ok? <==>
            doc.Fields? && doc.kind == Some("Job") && Given(doc.name) && Given(doc.cluster) && Given(doc.user)
            && Given(doc.partition) && Given(doc.script))
      && (r.Ok? ==>
            r.value == Manifest(f.path, env.hash(f.body), doc.name.value, doc.cluster.value, doc.user.value,
                                doc.partition.value, doc.script.value))
  {
  }

  /** Of a document that is none, the reason is the first thing that is wrong with it. */
  lemma RefusalExactly(env: Env, f: File)
    requires ParseFile(env, f).Err?
    ensures var doc, e := env.load(f.body), ParseFile(env, f).error;
      && (e == YamlError <==> doc == Unparsable) && (e == EmptyDocument <==> doc == NotAnObject)
      && (doc.Fields? ==>
            && (e == WrongKind <==> doc.kind != Some("Job"))
            && (e == NameRequired <==> doc.kind == Some("Job") && !Given(doc.name))
            && (e == ClusterRequired ==> Given(doc.name) && !Given(doc.cluster))
            && (e == UserRequired ==> Given(doc.name) && Given(doc.cluster) && !Given(doc.user))
            && (e == PartitionRequired ==> Given(doc.cluster) && Given(doc.user) && !Given(doc.partition))
            && (e == ScriptRequired ==> Given(doc.user) && Given(doc.partition) && !Given(doc.script)))
  {
  }

  /* ---------- the jobs launched for one key ---------- */

  /**
   * Of the jobs that these submissions brought to life for the key, only the one its row names can be
   * live.
   */
  predicate Tracked(w: World, launches: seq<Launch>, k: Key) {
    forall l, s | l in launches && l.key == k && s in l.added ::
      && s.cluster == k.cluster && s.number < NextNumber(w.slurms, k.cluster)
      && (s in w.live ==> k in w.owned && w.owned[k].slurm == Some(s.number))
  }

  /** No submission for the key failed and yet left a job behind. */
  predicate NoLeak(launches: seq<Launch>, k: Key) {
    forall l | l in launches && l.key == k :: l.outcome != SbatchFailed(true)
  }

  /** Numbers only grow, the key's row names what it named, and jobs that are live were so before. */
  predicate Aged(before: World, after: World, k: Key) {
    && NextNumber(before.slurms, k.cluster) <= NextNumber(after.slurms, k.cluster)
    && (forall s | s in after.live && s.cluster == k.cluster ::
          s in before.live || s.number >= NextNumber(before.slurms, k.cluster))
    && (k in before.owned ==> k in after.owned && after.owned[k].slurm == before.owned[k].slurm)
  }

  lemma TrackedAged(before: World, after: World, launches: seq<Launch>, k: Key)
    requires Tracked(before, launches, k) && Aged(before, after, k)
    ensures Tracked(after, launches, k)
  {
    hide NextNumber;
    forall l, s | l in launches && l.key == k && s in l.added
      ensures s.cluster == k.cluster && s.number < NextNumber(after.slurms, k.cluster)
      ensures s in after.live ==> k in after.owned && after.owned[k].slurm == Some(s.number)
    {
    }
  }

  lemma TurnTracked(env: Env, conflicts: set<Key>, p: Pass, m: Manifest, earlier: seq<Launch>, k: Key)
    requires Truthful(p.w) && LiveDrawn(p.w) && Tracked(p.w, earlier + p.launches, k) && k.cluster in env.ssh
    requires NoLeak(Handle(env, conflicts, p, m).launches, k)
    ensures var r := Handle(env, conflicts, p, m); Tracked(r.w, earlier + r.launches, k) && LiveDrawn(r.w)
  {
    var r := Handle(env, conflicts, p, m);
    hide Handle, Truthful, Leaves, LiveDrawn, NextNumber, Counted;
    if !Launches(p, r) {
      TurnWithout(env, conflicts, p, m);
      StillDrawn(p.w, r.w);
      TrackedAged(p.w, r.w, earlier + p.launches, k);
    } else {
      TurnSubmits(env, conflicts, p, m);
      var l := r.launches[|p.launches|];
      assert earlier + r.launches == (earlier + p.launches) + [l];
      assert l in r.launches;
      if l.key == k {
        HandleLaunches(env, conflicts, p, m);
        assert !IsLive(l.live, k, if k in p.w.owned then p.w.owned[k].slurm else None);
        NewTracked(p.w, earlier + p.launches, l, r.w, k);
      } else {
        HandleFrame(env, conflicts, p, m);
        OtherTracked(p.w, earlier + p.launches, l, r.w, k);
      }
    }
  }

  /** The key's own submission: what its row named before is not live any more. */
  lemma NewTracked(before: World, launches: seq<Launch>, l: Launch, after: World, k: Key)
    requires Tracked(before, launches, k) && l.key == k && Leaves(l, after) && l.outcome != SbatchFailed(true)
    requires LiveDrawn(after) && NumbersGrow(before, after) && l.live <= before.live
    requires !IsLive(l.live, k, if k in before.owned then before.owned[k].slurm else None)
    requires forall s :: s in l.added ==> s == SlurmJob(k.cluster, NextNumber(before.slurms, k.cluster))
    ensures Tracked(after, launches + [l], k)
  {
    NextGrows(before, after, k.cluster);
    forall l0, s | l0 in launches + [l] && l0.key == k && s in l0.added
      ensures s.cluster == k.cluster && s.number < NextNumber(after.slurms, k.cluster)
      ensures s in after.live ==> k in after.owned && after.owned[k].slurm == Some(s.number)
    {
      if l0 in launches {
        assert s !in l.live;
      } else {
        assert l0 == l && s in after.live;
      }
    }
  }

  lemma OtherTracked(before: World, launches: seq<Launch>, l: Launch, after: World, k: Key)
    requires Tracked(before, launches, k) && l.key != k && Leaves(l, after)
    requires NumbersGrow(before, after) && l.live <= before.live && SameAt(before.owned, after.owned, k)
    requires forall s :: s in l.added ==> s == SlurmJob(l.key.cluster, NextNumber(before.slurms, l.key.cluster))
    ensures Tracked(after, launches + [l], k)
  {
    NextGrows(before, after, k.cluster);
    assert after.live == l.live + l.added;
    TrackedAged(before, after, launches, k);
  }

  lemma NextGrows(before: World, after: World, c: ClusterId)
    requires NumbersGrow(before, after)
    ensures NextNumber(before.slurms, c) <= NextNumber(after.slurms, c)
  {
  }

  lemma {:induction false} LoopTracked(env: Env, conflicts: set<Key>, p: Pass, ms: seq<Manifest>,
                                       earlier: seq<Launch>, k: Key)
    requires Truthful(p.w) && LiveDrawn(p.w) && Tracked(p.w, earlier + p.launches, k) && k.cluster in env.ssh
    requires NoLeak(HandleAll(env, conflicts, p, ms).launches, k)
    ensures var r := HandleAll(env, conflicts, p, ms);
      Truthful(r.w) && LiveDrawn(r.w) && Tracked(r.w, earlier + r.launches, k)
  {
    if ms != [] {
      hide Handle, Truthful, LiveDrawn, Tracked, Doubles;
      var before, m := HandleAll(env, conflicts, p, ms[..|ms| - 1]), ms[|ms| - 1];
      LaunchesGrow(env, conflicts, before, m);
      LoopTracked(env, conflicts, p, ms[..|ms| - 1], earlier, k);
      HandleLaunches(env, conflicts, before, m);
      TurnTracked(env, conflicts, before, m, earlier, k);
    }
  }

  lemma LaunchesGrow(env: Env, conflicts: set<Key>, p: Pass, m: Manifest)
    ensures p.launches <= Handle(env, conflicts, p, m).launches
  {
    hide Submit, Cancel, Drop, LaunchOf;
  }

  /* ---------- the removal pass ---------- */

  lemma RemoveLoses(env: Env, p: Pass, j: Key)
    requires Truthful(p.w)
    ensures var r := Remove(env, p, j);
      && Truthful(r.w) && r.launches == p.launches && r.seen == p.seen
      && r.w.live <= p.w.live && r.w.slurms == p.w.slurms
  {
    if j in p.w.owned {
      CancelTruthful(env, p.w, j);
      CancelShrinks(env, p.w, j);
      DropTruthful(p.w, j);
      DropTruthful(Cancel(env, p.w, j).0, j);
      hide Truthful, Cancel;
    }
  }

  lemma DropTruthful(w: World, j: Key)
    ensures Truthful(w) ==> Truthful(Drop(w, j))
  {
  }

  lemma {:induction false} RemovalLoses(env: Env, p: Pass, listing: seq<Key>)
    requires Truthful(p.w)
    ensures var r := RemoveAll(env, p, listing);
      && Truthful(r.w) && r.launches == p.launches && r.seen == p.seen
      && r.w.live <= p.w.live && r.w.slurms == p.w.slurms
  {
    if listing != [] {
      hide Remove, Truthful;
      RemovalLoses(env, p, listing[..|listing| - 1]);
      RemoveLoses(env, RemoveAll(env, p, listing[..|listing| - 1]), listing[|listing| - 1]);
    }
  }

  /** The removal pass drops the key's row although the job it names lives on. */
  predicate Orphans(before: World, after: World, k: Key) {
    k in before.owned && k !in after.owned && IsLive(after.live, k, before.owned[k].slurm)
  }

  /** A whole pass, behind any earlier ones. */
  lemma PassTracked(env: Env, w: World, files: seq<File>, conflicts: set<Key>, listing: seq<Key>,
                    earlier: seq<Launch>, k: Key)
    requires Truthful(w) && LiveDrawn(w) && Tracked(w, earlier, k) && k.cluster in env.ssh
    requires NoLeak(Reconciled(env, w, files, conflicts, listing).launches, k)
    requires !Orphans(Looped(env, w, files, conflicts).w, Reconciled(env, w, files, conflicts, listing).w, k)
    ensures var r := Reconciled(env, w, files, conflicts, listing);
      Truthful(r.w) && LiveDrawn(r.w) && Tracked(r.w, earlier + r.launches, k)
  {
    var p := Pass(w, ScanSummary(env, files), {}, []);
    var looped, r := Looped(env, w, files, conflicts), Reconciled(env, w, files, conflicts, listing);
    assert earlier + p.launches == earlier;
    RemovalLaunchesNothing(env, looped, listing);
    LoopTracked(env, conflicts, p, Parsed(env, files), earlier, k);
    RemovalLoses(env, looped, listing);
    StillDrawn(looped.w, r.w);
    RemovalFrame(env, looped, listing);
    hide Truthful, LiveDrawn, HandleAll, RemoveAll, Parsed, ScanSummary, NextNumber;
    forall l, s | l in earlier + r.launches && l.key == k && s in l.added
      ensures s.cluster == k.cluster && s.number < NextNumber(r.w.slurms, k.cluster)
      ensures s in r.w.live ==> k in r.w.owned && r.w.owned[k].slurm == Some(s.number)
    {
      if s in r.w.live {
        assert s in looped.w.live && looped.w.owned[k].slurm == Some(s.number);
        assert k in looped.seen || k !in listing ==> SameAt(looped.w.owned, r.w.owned, k);
      }
    }
  }

  /* ---------- any number of passes ---------- */

  /** One pass with the world it finds. */
  datatype Tick = Tick(w: World, env: Env, files: seq<File>, conflicts: set<Key>, listing: seq<Key>)

  function After(t: Tick): Pass {
    Reconciled(t.env, t.w, t.files, t.conflicts, t.listing)
  }

  /**
   * What may happen until the next pass: jobs end, rows learn their status, other jobs are submitted to
   * the clusters under numbers of their own.
   */
  ghost predicate Meanwhile(before: World, after: World) {
    && NumbersGrow(before, after) && LiveDrawn(after)
    && (forall s | s in after.live :: s in before.live || s.number >= NextNumber(before.slurms, s.cluster))
    && after.owned.Keys == before.owned.Keys
    && (forall k | k in before.owned :: after.owned[k] == before.owned[k].(status := after.owned[k].status))
    && (forall k :: k in after.owned && IsLive(after.live, k, after.owned[k].slurm) ==> Active(after.owned[k].status))
  }

  const NOTHING := World(map[], {}, 0, map[], 0, 0)

  /** Passes one after another, from an empty table, on clusters that are reached as they are. */
  ghost predicate History(ticks: seq<Tick>, ssh: set<ClusterId>) {
    && (ticks != [] ==> ticks[0].w == NOTHING)
    && (forall i | 0 <= i < |ticks| :: ticks[i].env.ssh == ssh)
    && (forall i, j | 0 <= i && j == i + 1 < |ticks| :: Meanwhile(After(ticks[i]).w, ticks[j].w))
  }

  function AllLaunches(ticks: seq<Tick>): seq<Launch> {
    if ticks == [] then [] else AllLaunches(ticks[..|ticks| - 1]) + After(ticks[|ticks| - 1]).launches
  }

  /** Neither a leaked submission nor a removal that leaves the job running, as far as this key goes. */
  ghost predicate Orderly(ticks: seq<Tick>, k: Key) {
    && NoLeak(AllLaunches(ticks), k)
    && forall t | t in ticks :: !Orphans(Looped(t.env, t.w, t.files, t.conflicts).w, After(t).w, k)
  }

  lemma MeanwhileTracked(before: World, after: World, launches: seq<Launch>, k: Key)
    requires Truthful(before) && Tracked(before, launches, k) && Meanwhile(before, after)
    ensures Truthful(after) && LiveDrawn(after) && Tracked(after, launches, k)
  {
    NextGrows(before, after, k.cluster);
    TrackedAged(before, after, launches, k);
    forall j | j in after.owned && after.owned[j].slurm.Some?
      ensures after.owned[j].slurm.value < NextNumber(after.slurms, j.cluster)
    {
      NextGrows(before, after, j.cluster);
      assert after.owned[j].slurm == before.owned[j].slurm;
    }
  }

  lemma {:induction false} HistoryTracked(ticks: seq<Tick>, ssh: set<ClusterId>, k: Key)
    requires ticks != [] && History(ticks, ssh) && Orderly(ticks, k) && k.cluster in ssh
    ensures var w := After(ticks[|ticks| - 1]).w;
      Truthful(w) && LiveDrawn(w) && Tracked(w, AllLaunches(ticks), k)
  {
    var front, t := ticks[..|ticks| - 1], ticks[|ticks| - 1];
    hide Reconciled, Looped, Tracked, Truthful, LiveDrawn, Meanwhile, Orphans;
    OrderlyFront(ticks, k);
    if front == [] {
      NothingTracked(k);
      assert |front| == |ticks| - 1;
    } else {
      assert forall i | 0 <= i < |front| :: front[i] == ticks[i];
      HistoryTracked(front, ssh, k);
      assert Meanwhile(After(front[|front| - 1]).w, t.w);
      MeanwhileTracked(After(front[|front| - 1]).w, t.w, AllLaunches(front), k);
    }
    assert t in ticks;
    PassTracked(t.env, t.w, t.files, t.conflicts, t.listing, AllLaunches(front), k);
  }

  lemma OrderlyFront(ticks: seq<Tick>, k: Key)
    requires ticks != [] && Orderly(ticks, k)
    ensures Orderly(ticks[..|ticks| - 1], k) && NoLeak(After(ticks[|ticks| - 1]).launches, k)
  {
    hide Reconciled, Looped, Orphans;
  }

  lemma NothingTracked(k: Key)
    ensures Truthful(NOTHING) && LiveDrawn(NOTHING) && Tracked(NOTHING, [], k)
  {
  }

  /**
   * Over any number of passes from an empty table, whatever the cluster answers and whatever ends or
   * is submitted by others in between: on a cluster reached over SSH, of all the jobs the loop has
   * ever launched for a key, at most one is live.
   */
  lemma OneLiveJob(ticks: seq<Tick>, ssh: set<ClusterId>, k: Key, i: nat, j: nat, a: SlurmJob, b: SlurmJob)
    requires ticks != [] && History(ticks, ssh) && Orderly(ticks, k) && k.cluster in ssh
    requires i < |AllLaunches(ticks)| && j < |AllLaunches(ticks)|
    requires AllLaunches(ticks)[i].key == k && AllLaunches(ticks)[j].key == k
    requires a in AllLaunches(ticks)[i].added && b in AllLaunches(ticks)[j].added
    requires var live := After(ticks[|ticks| - 1]).w.live; a in live && b in live
    ensures a == b
  {
    hide Reconciled, Looped, AllLaunches, History, Orderly, Truthful, LiveDrawn;
    HistoryTracked(ticks, ssh, k);
    assert AllLaunches(ticks)[i] in AllLaunches(ticks) && AllLaunches(ticks)[j] in AllLaunches(ticks);
  }

  /** A leaked submission does break it: the next version of the manifest is launched beside that job. */
  lemma LeakDoubles(env: Env, env': Env, conflicts: set<Key>, p: Pass, q: Pass, m: Manifest, m': Manifest)
    requires LiveDrawn(p.w) && Launches(p, Handle(env, conflicts, p, m))
    requires env.submit(p.w.submits) == SbatchFailed(true)
    requires q.w == Handle(env, conflicts, p, m).w
    requires env'.clusters == env.clusters && env'.users == env.users
    requires m'.cluster == m.cluster && m'.name == m.name && m'.user == m.user && SourceRef(m') != SourceRef(m)
    ensures var first, r := Handle(env, conflicts, p, m), Handle(env', conflicts, q, m');
      && |first.launches| == |p.launches| + 1 && |r.launches| == |q.launches| + 1
      && first.launches[|p.launches|].added != {}
      && first.launches[|p.launches|].added <= r.launches[|q.launches|].live
  {
    TurnSubmits(env, conflicts, p, m);
    var first := Handle(env, conflicts, p, m);
    var l := first.launches[|p.launches|];
    SubmitOutcomeIs(env, conflicts, p, m);
    hide Handle, LiveDrawn, NumbersGrow, Counted;
    CarriesIs(m);
    InactiveReplaced(env', conflicts, q, m');
  }

  lemma SubmitOutcomeIs(env: Env, conflicts: set<Key>, p: Pass, m: Manifest)
    requires Launches(p, Handle(env, conflicts, p, m))
    ensures Handle(env, conflicts, p, m).launches[|p.launches|].outcome == env.submit(p.w.submits)
  {
    hide Submit, Drop;
    if Resolvable(env, m) && KeyOf(env, m) in p.w.owned {
      CancelShrinks(env, p.w, KeyOf(env, m));
      assert Drop(p.w, KeyOf(env, m)).submits == p.w.submits by { DropKeeps(p.w, KeyOf(env, m)); }
      DropKeeps(Cancel(env, p.w, KeyOf(env, m)).0, KeyOf(env, m));
    }
    hide Cancel;
  }

  lemma DropKeeps(w: World, k: Key)
    ensures Drop(w, k).submits == w.submits && Drop(w, k).live == w.live
  {
  }

  /** A row that is not active and carries another reference is replaced at once. */
  lemma InactiveReplaced(env: Env, conflicts: set<Key>, p: Pass, m: Manifest)
    requires Resolvable(env, m) && KeyOf(env, m) !in conflicts && KeyOf(env, m) in p.w.owned
    requires var r := p.w.owned[KeyOf(env, m)]; !Active(r.status) && r.sourceRef != Some(SourceRef(m))
    ensures var r := Handle(env, conflicts, p, m);
      |r.launches| == |p.launches| + 1 && r.launches[|p.launches|].live == p.w.live
  {
    hide Submit, Drop, SourceRef;
    DropKeeps(p.w, KeyOf(env, m));
  }
}
