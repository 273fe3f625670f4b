/**
 * The GitOps reconciler on values: manifests from a repository, the Job rows it owns, and the
 * jobs that are live in Slurm. What the cluster answers to a submission or a cancellation is
 * left to the environment.
 */
module GitOpsModel {
  import opened Wrappers
  import opened Counting

  /* ---------- manifests ---------- */

  /** A YAML body after loading. A missing field is `None`. */
  datatype Document =
    | Unparsable
    | NotAnObject
    | Fields(kind: Option<string>, name: Option<string>, cluster: Option<string>, user: Option<string>,
             partition: Option<string>, script: Option<string>)

  datatype File = File(path: string, body: string)

  datatype Manifest = Manifest(relPath: string, contentHash: string, name: string, cluster: string, user: string,
                               partition: string, script: string)

  datatype ParseError =
    | YamlError | EmptyDocument | WrongKind | NameRequired | ClusterRequired | UserRequired
    | PartitionRequired | ScriptRequired

  /** Absent and empty are both falsy. */
  predicate Missing(field: Option<string>) {
    field == None || field == Some("")
  }

  function ParseDocument(relPath: string, hash: string, doc: Document): Result<Manifest, ParseError> {
    match doc
    case Unparsable => Err(YamlError)
    case NotAnObject => Err(EmptyDocument)
    case Fields(kind, name, cluster, user, partition, script) =>
      if kind != Some("Job") then Err(WrongKind)
      else if Missing(name) then Err(NameRequired)
      else if Missing(cluster) then Err(ClusterRequired)
      else if Missing(user) then Err(UserRequired)
      else if Missing(partition) then Err(PartitionRequired)
      else if Missing(script) then Err(ScriptRequired)
      else Ok(Manifest(relPath, hash, name.value, cluster.value, user.value, partition.value, script.value))
  }

  /* ---------- the tables and the cluster ---------- */

  type ClusterId = nat

  /** The `(clusterId, sourceName)` unique key of an owned row. */
  datatype Key = Key(cluster: ClusterId, name: string)

  datatype Status = PENDING | RUNNING | COMPLETED | FAILED | CANCELLED

  /** A job as Slurm knows it: every cluster counts for itself. */
  datatype SlurmJob = SlurmJob(cluster: ClusterId, number: nat)

  datatype Row = Row(id: nat, sourceRef: Option<string>, status: Status, slurm: Option<nat>)

  predicate Active(s: Status) {
    s == PENDING || s == RUNNING
  }

  /** The job that a row of this key names is in Slurm. */
  predicate IsLive(live: set<SlurmJob>, k: Key, slurm: Option<nat>) {
    slurm.Some? && SlurmJob(k.cluster, slurm.value) in live
  }

  /**
   * `submitJob`: turned down before a row exists; a row created and `sbatch` failed (`leaked`
   * when the job is in Slurm all the same); or running.
   */
  datatype SubmitOutcome = Refused | SbatchFailed(leaked: bool) | Started

  /** `scancel`: acknowledged; done but the acknowledgement lost; or denied. */
  datatype CancelOutcome = Acked | AckLost | Denied

  /** The lookups of a pass, and what the cluster will answer to its n-th call. */
  datatype Env = Env(
    load: string -> Document, hash: string -> string,
    clusters: map<string, ClusterId>, users: set<string>, ssh: set<ClusterId>,
    submit: nat -> SubmitOutcome, cancel: nat -> CancelOutcome)

  /**
   * Owned rows under their unique key, the live Slurm jobs, the counter of row ids, the next job number
   * of each cluster (one where none is noted), and the calls made so far.
   */
  datatype World = World(owned: map<Key, Row>, live: set<SlurmJob>, rows: nat, slurms: map<ClusterId, nat>,
                         submits: nat, cancels: nat)

  function NextNumber(slurms: map<ClusterId, nat>, cluster: ClusterId): nat {
    if cluster in slurms then slurms[cluster] else 1
  }

  datatype SkipReason = BadManifest(e: ParseError) | ClusterNotFound | UserNotFound | NameConflict

  datatype Summary = Summary(scanned: nat, submitted: nat, resubmitted: nat, cancelled: nat, same: nat,
                             skipped: seq<(string, SkipReason)>, errors: seq<string>)

  /**
   * One call of `submitJob` for a key: the manifest submitted, the Slurm job the key's previous row
   * named, what was live then, how the call went, and what it brought to life.
   */
  datatype Launch = Launch(key: Key, manifest: Manifest, previous: Option<nat>, live: set<SlurmJob>,
                           outcome: SubmitOutcome, added: set<SlurmJob>)

  datatype Pass = Pass(w: World, sum: Summary, seen: set<Key>, launches: seq<Launch>)

  const NO_SUMMARY := Summary(0, 0, 0, 0, 0, [], [])

  /* ---------- scanning ---------- */

  predicate IsYaml(path: string) {
    (|path| >= 5 && path[|path| - 5..] == ".yaml") || (|path| >= 4 && path[|path| - 4..] == ".yml")
  }

  function ParseFile(env: Env, f: File): Result<Manifest, ParseError> {
    ParseDocument(f.path, env.hash(f.body), env.load(f.body))
  }

  /** The valid manifests of a scan, in file order. */
  function Parsed(env: Env, files: seq<File>): seq<Manifest> {
    if files == [] then [] else Parsed(env, files[..|files| - 1]) + ParsedFrom(env, files[|files| - 1])
  }

  function ParsedFrom(env: Env, f: File): seq<Manifest> {
    if IsYaml(f.path) && ParseFile(env, f).Ok? then [ParseFile(env, f).value] else []
  }

  function ScanSummary(env: Env, files: seq<File>): Summary {
    if files == [] then NO_SUMMARY else Scanned(env, ScanSummary(env, files[..|files| - 1]), files[|files| - 1])
  }

  function Scanned(env: Env, s: Summary, f: File): Summary {
    if !IsYaml(f.path) then s
    else
      match ParseFile(env, f)
      case Ok(_) => s.(scanned := s.scanned + 1)
      case Err(e) => s.(scanned := s.scanned + 1, skipped := s.skipped + [(f.path, BadManifest(e))])
  }

  function SourceRef(m: Manifest): string {
    m.relPath + "@sha256:" + m.contentHash
  }

  /* ---------- conflicts ---------- */

  predicate ClaimsKey(env: Env, m: Manifest, k: Key) {
    m.cluster in env.clusters && Key(env.clusters[m.cluster], m.name) == k
  }

  /** How many of these manifests resolve to the key; the user does not matter here. */
  function Claims(env: Env, ms: seq<Manifest>, k: Key): nat {
    Count(ms, m => ClaimsKey(env, m, k))
  }

  predicate Conflicted(env: Env, ms: seq<Manifest>, k: Key) {
    Claims(env, ms, k) > 1
  }

  /* ---------- submitting and cancelling ---------- */

  function Submit(env: Env, w: World, k: Key, ref: string): World {
    var w1 := w.(submits := w.submits + 1);
    var n := NextNumber(w.slurms, k.cluster);
    match env.submit(w.submits)
    case Refused => w1
    case SbatchFailed(leaked) =>
      w1.(owned := w.owned[k := Row(w.rows, Some(ref), FAILED, None)], rows := w.rows + 1,
          live := if leaked then w.live + {SlurmJob(k.cluster, n)} else w.live, slurms := w.slurms[k.cluster := n + 1])
    case Started =>
      w1.(owned := w.owned[k := Row(w.rows, Some(ref), RUNNING, Some(n))], rows := w.rows + 1,
          live := w.live + {SlurmJob(k.cluster, n)}, slurms := w.slurms[k.cluster := n + 1])
  }

  predicate Submitted(env: Env, w: World) {
    env.submit(w.submits) == Started
  }

  /** `cancelSlurmJob` and whether it reports success. Off SSH nothing is sent, yet it reports success. */
  function Cancel(env: Env, w: World, k: Key): (World, bool)
    requires k in w.owned
  {
    var r := w.owned[k];
    var marked := w.(owned := w.owned[k := r.(status := CANCELLED)]);
    if r.slurm == None || k.cluster !in env.ssh then (marked, true)
    else
      var job := SlurmJob(k.cluster, r.slurm.value);
      match env.cancel(w.cancels)
      case Acked => (marked.(live := w.live - {job}, cancels := w.cancels + 1), true)
      case AckLost => (w.(live := w.live - {job}, cancels := w.cancels + 1), false)
      case Denied => (w.(cancels := w.cancels + 1), false)
  }

  function Drop(w: World, k: Key): World {
    w.(owned := map j | j in w.owned && j != k :: w.owned[j])
  }

  /* ---------- the manifest loop ---------- */

  function Skip(p: Pass, m: Manifest, why: SkipReason): Pass {
    p.(sum := p.sum.(skipped := p.sum.skipped + [(m.relPath, why)]))
  }

  function Failed(p: Pass, w: World, m: Manifest): Pass {
    p.(w := w, sum := p.sum.(errors := p.sum.errors + [m.relPath]))
  }

  /** What the call leaves behind in the log of the pass. */
  function LaunchOf(env: Env, w: World, k: Key, previous: Option<nat>, m: Manifest): Launch {
    Launch(k, m, previous, w.live, env.submit(w.submits), Submit(env, w, k, SourceRef(m)).live - w.live)
  }

  /** A key with no row: submit. */
  function SubmitNew(env: Env, p: Pass, k: Key, m: Manifest): Pass {
    var launched := p.(launches := p.launches + [LaunchOf(env, p.w, k, None, m)]);
    var w := Submit(env, p.w, k, SourceRef(m));
    if Submitted(env, p.w) then launched.(w := w, sum := p.sum.(submitted := p.sum.submitted + 1))
    else Failed(launched, w, m)
  }

  /** A key whose row has been dealt with: drop the row and submit again. */
  function Replace(env: Env, p: Pass, k: Key, previous: Option<nat>, m: Manifest): Pass {
    var w := Drop(p.w, k);
    var launched := p.(launches := p.launches + [LaunchOf(env, w, k, previous, m)]);
    var w' := Submit(env, w, k, SourceRef(m));
    if Submitted(env, w) then launched.(w := w', sum := p.sum.(resubmitted := p.sum.resubmitted + 1))
    else Failed(launched, w', m)
  }

  /** The row's content differs: cancel what is active, then replace; a failed cancel stops here. */
  function Resubmit(env: Env, p: Pass, k: Key, m: Manifest): Pass
    requires k in p.w.owned
  {
    var r := p.w.owned[k];
    if !Active(r.status) then Replace(env, p, k, r.slurm, m)
    else
      var (w, ok) := Cancel(env, p.w, k);
      if !ok then Failed(p, w, m)
      else Replace(env, p.(w := w, sum := p.sum.(cancelled := p.sum.cancelled + 1)), k, r.slurm, m)
  }

  /** One turn of the manifest loop. */
  function Handle(env: Env, conflicts: set<Key>, p: Pass, m: Manifest): Pass {
    if m.cluster !in env.clusters then Skip(p, m, ClusterNotFound)
    else if m.user !in env.users then Skip(p, m, UserNotFound)
    else
      var k := Key(env.clusters[m.cluster], m.name);
      var p1 := p.(seen := p.seen + {k});
      if k in conflicts then Skip(p1, m, NameConflict)
      else if k !in p.w.owned then SubmitNew(env, p1, k, m)
      else if p.w.owned[k].sourceRef == Some(SourceRef(m)) then
        p1.(sum := p.sum.(same := p.sum.same + 1))
      else Resubmit(env, p1, k, m)
  }

  function HandleAll(env: Env, conflicts: set<Key>, p: Pass, ms: seq<Manifest>): Pass {
    if ms == [] then p
    else Handle(env, conflicts, HandleAll(env, conflicts, p, ms[..|ms| - 1]), ms[|ms| - 1])
  }

  /* ---------- the removal pass ---------- */

  /** One owned row of the listing: left alone when seen, else cancelled (whatever comes of it) and dropped. */
  function Remove(env: Env, p: Pass, k: Key): Pass {
    if k in p.seen || k !in p.w.owned then p
    else
      var w := if Active(p.w.owned[k].status) then Cancel(env, p.w, k).0 else p.w;
      p.(w := Drop(w, k), sum := p.sum.(cancelled := p.sum.cancelled + 1))
  }

  function RemoveAll(env: Env, p: Pass, listing: seq<Key>): Pass {
    if listing == [] then p
    else Remove(env, RemoveAll(env, p, listing[..|listing| - 1]), listing[|listing| - 1])
  }

  /* ---------- a whole pass ---------- */

  /** The keys the first pass marks as conflicted. */
  ghost predicate AreConflicts(env: Env, ms: seq<Manifest>, conflicts: set<Key>) {
    forall k :: k in conflicts <==> Conflicted(env, ms, k)
  }

  /** The listing of owned rows, in whatever order the database returns it. */
  predicate IsListing(listing: seq<Key>, owned: map<Key, Row>) {
    && (forall k :: k in listing ==> k in owned)
    && (forall k :: k in owned ==> k in listing)
    && (forall i, j :: 0 <= i < j < |listing| ==> listing[i] != listing[j])
  }

  function Looped(env: Env, w: World, files: seq<File>, conflicts: set<Key>): Pass {
    HandleAll(env, conflicts, Pass(w, ScanSummary(env, files), {}, []), Parsed(env, files))
  }

  function Reconciled(env: Env, w: World, files: seq<File>, conflicts: set<Key>, listing: seq<Key>): Pass {
    RemoveAll(env, Looped(env, w, files, conflicts), listing)
  }
}
