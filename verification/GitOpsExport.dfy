/**
 * Adopting live jobs into the repository: how the exporter names and writes their manifests,
 * what it prunes, and why the next reconcile pass leaves the adopted jobs alone.
 */
module GitOpsExport {
  import opened Wrappers
  import opened Text
  import opened GitOpsModel
  import opened GitOpsReconcile

  /* ---------- what is exported ---------- */

  /** A PENDING or RUNNING row with its cluster's name; `user` is absent when the user row is. */
  datatype Job = Job(id: nat, shortId: string, slurm: Option<nat>, cluster: string, user: Option<string>,
                     name: Option<string>, script: string, partition: string)

  /** The YAML writer, the `--job-name` search, and where the jobs tree lies in the repository. */
  datatype Tools = Tools(dump: (string, string, string, string, string) -> string,
                         extractName: string -> Option<string>, root: string)

  /** One manifest to write and one row to patch. `backfill` is the name for a row that had none. */
  datatype Plan = Plan(job: Job, name: string, path: string, body: string, ref: string, backfill: Option<string>)

  const HEADER_PREFIX := "# Managed by SlurmUI GitOps"
  const ADOPTED_HEADER := HEADER_PREFIX + " \U{2014} auto-adopted from a live job."

  function CandidateName(t: Tools, j: Job): string {
    if j.name.Some? then j.name.value
    else if t.extractName(j.script).Some? then t.extractName(j.script).value
    else if j.slurm.Some? && j.slurm.value != 0 then Decimal(j.slurm.value)
    else j.shortId
  }

  function SafeName(s: string): (r: string)
    ensures '/' !in r
  {
    if s == "" then ""
    else [if s[0] == '/' || s[0] == '\\' || s[0] == '\0' then '_' else s[0]] + SafeName(s[1..])
  }

  function Safe(t: Tools, j: Job): string {
    SafeName(CandidateName(t, j))
  }

  /** The Slurm number, or the short row id: what tells two jobs of one name apart. */
  function Tag(j: Job): string {
    if j.slurm.Some? then Decimal(j.slurm.value) else j.shortId
  }

  function ManifestPath(t: Tools, cluster: string, name: string): string {
    t.root + "/" + cluster + "/" + name + ".yaml"
  }

  function ManifestBody(t: Tools, j: Job, name: string): string {
    ADOPTED_HEADER + "\n" + t.dump(name, j.cluster, j.user.GetOr(""), j.partition, j.script)
  }

  function Ref(env: Env, path: string, body: string): string {
    path + "@sha256:" + env.hash(body)
  }

  /** The cluster-and-name keys that exported jobs have used. */
  function NamesUsed(t: Tools, jobs: seq<Job>): set<(string, string)> {
    if jobs == [] then {}
    else
      var j := jobs[|jobs| - 1];
      NamesUsed(t, jobs[..|jobs| - 1]) + if j.user.Some? then {(j.cluster, Safe(t, j))} else {}
  }

  function ExportName(t: Tools, earlier: seq<Job>, j: Job): string {
    if (j.cluster, Safe(t, j)) in NamesUsed(t, earlier) then Safe(t, j) + "__" + Tag(j) else Safe(t, j)
  }

  function PlanFor(env: Env, t: Tools, j: Job, name: string): Plan {
    var path, body := ManifestPath(t, j.cluster, name), ManifestBody(t, j, name);
    Plan(j, name, path, body, Ref(env, path, body), if j.name == None then Some(CandidateName(t, j)) else None)
  }

  /** The export loop: jobs without a known user are passed over. */
  function Plans(env: Env, t: Tools, jobs: seq<Job>): seq<Plan> {
    if jobs == [] then []
    else
      var front, j := jobs[..|jobs| - 1], jobs[|jobs| - 1];
      Plans(env, t, front) + if j.user == None then [] else [PlanFor(env, t, j, ExportName(t, front, j))]
  }

  /**
   * The name tried: the job's own, else the one its script sets, else its Slurm number, else its short
   * id. It is exported with slashes, backslashes and NULs as underscores, and told apart from another
   * of its name by the Slurm number, or the short id.
   */
  lemma NameTried(t: Tools, j: Job)
    ensures j.name.Some? ==> CandidateName(t, j) == j.name.value
    ensures j.name == None && t.extractName(j.script).Some? ==> CandidateName(t, j) == t.extractName(j.script).value
    ensures j.name == None && t.extractName(j.script) == None && j.slurm.Some? && j.slurm.value > 0 ==>
      CandidateName(t, j) == Decimal(j.slurm.value)
    ensures j.name == None && t.extractName(j.script) == None && (j.slurm == None || j.slurm == Some(0)) ==>
      CandidateName(t, j) == j.shortId
    ensures |Safe(t, j)| == |CandidateName(t, j)|
    ensures forall i :: 0 <= i < |Safe(t, j)| ==>
      Safe(t, j)[i] == if CandidateName(t, j)[i] in {'/', '\\', '\0'} then '_' else CandidateName(t, j)[i]
    ensures Tag(j) == if j.slurm.Some? then Decimal(j.slurm.value) else j.shortId
  {
    SafeNameAt(CandidateName(t, j));
  }

  lemma {:induction false} SafeNameAt(s: string)
    ensures |SafeName(s)| == |s|
    ensures forall i :: 0 <= i < |s| ==> SafeName(s)[i] == if s[i] in {'/', '\\', '\0'} then '_' else s[i]
  {
    if s != "" {
      SafeNameAt(s[1..]);
    }
  }

  /** The writer puts down what the loader reads back, below the header. */
  ghost predicate Inverts(env: Env, t: Tools) {
    forall name, cluster, user, partition, script ::
      env.load("# Managed by SlurmUI GitOps \U{2014} auto-adopted from a live job." + "\n"
               + t.dump(name, cluster, user, partition, script))
      == Fields(Some("Job"), Some(name), Some(cluster), Some(user), Some(partition), Some(script))
  }

  /** So the file of a job reads back as that job: its name, cluster, user, partition and script. */
  lemma PlanReadsBack(env: Env, t: Tools, j: Job, name: string)
    requires Inverts(env, t) && j.user.Some?
    ensures var p := PlanFor(env, t, j, name);
      && p.job == j && p.name == name && p.path == t.root + "/" + j.cluster + "/" + name + ".yaml"
      && p.ref == p.path + "@sha256:" + env.hash(p.body)
      && (if j.name.Some? then p.backfill == None else p.backfill == Some(CandidateName(t, j)))
      && env.load(p.body) == Fields(Some("Job"), Some(name), Some(j.cluster), j.user, Some(j.partition), Some(j.script))
  {
    HeaderIs();
  }

  lemma HeaderIs()
    ensures ADOPTED_HEADER == "# Managed by SlurmUI GitOps \U{2014} auto-adopted from a live job."
  {
  }

  /* ---------- the names ---------- */

  predicate DistinctNames(plans: seq<Plan>) {
    forall i, j :: 0 <= i < j < |plans| && plans[i].job.cluster == plans[j].job.cluster ==>
      plans[i].name != plans[j].name
  }

  /** A plan whose job met its own name already taken. */
  predicate Suffixed(t: Tools, p: Plan) {
    p.name == Safe(t, p.job) + "__" + Tag(p.job)
  }

  /** Jobs without a known user are not exported. */
  predicate IsExported(jobs: seq<Job>, i: nat)
    requires i < |jobs|
  {
    jobs[i].user.Some?
  }

  /** Two exported jobs of one cluster. */
  predicate Neighbours(jobs: seq<Job>, i: nat, j: nat)
    requires i < |jobs| && j < |jobs|
  {
    IsExported(jobs, i) && IsExported(jobs, j) && jobs[i].cluster == jobs[j].cluster
  }

  /** An earlier exported job of the cluster has the same safe name. */
  predicate Repeats(t: Tools, jobs: seq<Job>, j: nat)
    requires j < |jobs|
  {
    exists i | 0 <= i < j :: Neighbours(jobs, i, j) && Safe(t, jobs[i]) == Safe(t, jobs[j])
  }

  /** Tags do what tags are for: no two exported jobs of a cluster share one, and none has an underscore. */
  ghost predicate TagsTell(jobs: seq<Job>) {
    && (forall i, j :: 0 <= i < j < |jobs| && Neighbours(jobs, i, j) ==> Tag(jobs[i]) != Tag(jobs[j]))
    && (forall i :: 0 <= i < |jobs| && IsExported(jobs, i) ==> '_' !in Tag(jobs[i]))
  }

  /** Every name is its job's safe name, or that with the tag; a bare name is the first of its kind. */
  lemma {:induction false} PlanShapes(env: Env, t: Tools, jobs: seq<Job>)
    ensures var ps := Plans(env, t, jobs);
      && (forall i :: 0 <= i < |ps| ==>
            ps[i].job.user.Some? && (ps[i].job.cluster, Safe(t, ps[i].job)) in NamesUsed(t, jobs)
            && (ps[i].name == Safe(t, ps[i].job) || Suffixed(t, ps[i]))
            && ps[i] == PlanFor(env, t, ps[i].job, ps[i].name))
      && (forall i, j | 0 <= i < j < |ps| && ps[i].job.cluster == ps[j].job.cluster
                        && Safe(t, ps[i].job) == Safe(t, ps[j].job) :: Suffixed(t, ps[j]))
  {
    if jobs != [] && jobs[|jobs| - 1].user.Some? {
      var front, j := jobs[..|jobs| - 1], jobs[|jobs| - 1];
      PlanShapes(env, t, front);
      hide Safe, Tag, ManifestPath, ManifestBody, Ref;
      var p := PlanFor(env, t, j, ExportName(t, front, j));
      var ps := Plans(env, t, jobs);
      assert ps == Plans(env, t, front) + [p];
      forall i, k | 0 <= i < k < |ps| && ps[i].job.cluster == ps[k].job.cluster
                    && Safe(t, ps[i].job) == Safe(t, ps[k].job)
        ensures Suffixed(t, ps[k])
      {
        assert ps[i] == Plans(env, t, front)[i];
        if k == |ps| - 1 {
          assert (j.cluster, Safe(t, j)) in NamesUsed(t, front);
        }
      }
    } else if jobs != [] {
      PlanShapes(env, t, jobs[..|jobs| - 1]);
      assert Plans(env, t, jobs) == Plans(env, t, jobs[..|jobs| - 1]);
    }
  }

  predicate DoubleUnderscore(s: string) {
    Contains(s, "__")
  }

  lemma SuffixContains(a: string, b: string)
    ensures DoubleUnderscore(a + "__" + b)
  {
    assert (a + "__" + b)[|a|..|a| + 2] == "__";
    assert OccursAt(a + "__" + b, "__", |a|);
  }

  /** A tag without underscores is what follows the last underscore, so it can be read back. */
  lemma SameTag(a: string, x: string, b: string, y: string)
    requires a + "__" + x == b + "__" + y && '_' !in x && '_' !in y
    ensures x == y
  {
    assert a + "__" + x == (a + "_") + "_" + x && b + "__" + y == (b + "_") + "_" + y;
    LastSeparator(a + "_", x, b + "_", y, '_');
  }

  lemma NotAfter(a: string, x: string, b: string, y: string, c: char)
    requires a + [c] + x == b + [c] + y && c !in x
    ensures |b| <= |a|
  {
    var s := a + [c] + x;
    forall i | |a| < i < |s| ensures s[i] != c {
      assert s[i] == x[i - |a| - 1];
    }
    assert (b + [c] + y)[|b|] == c;
  }

  /** What follows the last separator, and what precedes it, can be read back. */
  lemma LastSeparator(a: string, x: string, b: string, y: string, c: char)
    requires a + [c] + x == b + [c] + y && c !in x && c !in y
    ensures a == b && x == y
  {
    NotAfter(a, x, b, y, c);
    NotAfter(b, y, a, x, c);
    assert (a + [c] + x)[..|a|] == a && (b + [c] + y)[..|a|] == b;
    assert (a + [c] + x)[|a| + 1..] == x && (b + [c] + y)[|a| + 1..] == y;
  }

  /** The name the i-th job is exported under. */
  function NameAt(t: Tools, jobs: seq<Job>, i: nat): string
    requires i < |jobs|
  {
    ExportName(t, jobs[..i], jobs[i])
  }

  lemma {:induction false} NamesUsedBy(t: Tools, jobs: seq<Job>, key: (string, string))
    ensures key in NamesUsed(t, jobs) <==>
      exists i | 0 <= i < |jobs| :: IsExported(jobs, i) && (jobs[i].cluster, Safe(t, jobs[i])) == key
  {
    hide Safe;
    if jobs != [] {
      var front := jobs[..|jobs| - 1];
      NamesUsedBy(t, front, key);
      if i :| 0 <= i < |front| && IsExported(front, i) && (front[i].cluster, Safe(t, front[i])) == key {
        assert IsExported(jobs, i) && jobs[i] == front[i];
      }
      if i :| 0 <= i < |jobs| && IsExported(jobs, i) && (jobs[i].cluster, Safe(t, jobs[i])) == key {
        assert i < |front| ==> IsExported(front, i) && front[i] == jobs[i];
      }
    }
  }

  /** A job's name is its safe name, with the tag exactly when it repeats an earlier one. */
  lemma NameAtIs(t: Tools, jobs: seq<Job>, i: nat)
    requires i < |jobs| && IsExported(jobs, i)
    ensures NameAt(t, jobs, i) ==
      if Repeats(t, jobs, i) then Safe(t, jobs[i]) + "__" + Tag(jobs[i]) else Safe(t, jobs[i])
  {
    hide Safe, Tag;
    var key := (jobs[i].cluster, Safe(t, jobs[i]));
    NamesUsedBy(t, jobs[..i], key);
    if key in NamesUsed(t, jobs[..i]) {
      var h :| 0 <= h < i && IsExported(jobs[..i], h) && (jobs[..i][h].cluster, Safe(t, jobs[..i][h])) == key;
      assert Neighbours(jobs, h, i) && Safe(t, jobs[h]) == Safe(t, jobs[i]);
    }
  }

  lemma NameAtPrefix(t: Tools, jobs: seq<Job>, n: nat, i: nat)
    requires i < n <= |jobs|
    ensures NameAt(t, jobs[..n], i) == NameAt(t, jobs, i) && IsExported(jobs[..n], i) == IsExported(jobs, i)
  {
    assert jobs[..n][..i] == jobs[..i];
  }

  lemma PlansNext(env: Env, t: Tools, jobs: seq<Job>)
    requires jobs != []
    ensures var n := |jobs| - 1;
      Plans(env, t, jobs) ==
        if IsExported(jobs, n) then Plans(env, t, jobs[..n]) + [PlanFor(env, t, jobs[n], NameAt(t, jobs, n))]
        else Plans(env, t, jobs[..n])
  {
  }

  /** Every plan is some exported job's. */
  lemma {:induction false} PlanOf(env: Env, t: Tools, jobs: seq<Job>, a: nat) returns (i: nat)
    requires a < |Plans(env, t, jobs)|
    ensures i < |jobs| && IsExported(jobs, i)
    ensures Plans(env, t, jobs)[a] == PlanFor(env, t, jobs[i], NameAt(t, jobs, i))
  {
    assert jobs != [];
    var n := |jobs| - 1;
    PlansNext(env, t, jobs);
    hide PlanFor, NameAt, Plans;
    if a < |Plans(env, t, jobs[..n])| {
      i := PlanOf(env, t, jobs[..n], a);
      NameAtPrefix(t, jobs, n, i);
    } else {
      i := n;
    }
  }

  /** Every exported job has a plan. */
  lemma {:induction false} PlannedAt(env: Env, t: Tools, jobs: seq<Job>, i: nat) returns (a: nat)
    requires i < |jobs| && IsExported(jobs, i)
    ensures a < |Plans(env, t, jobs)| && Plans(env, t, jobs)[a] == PlanFor(env, t, jobs[i], NameAt(t, jobs, i))
  {
    var n := |jobs| - 1;
    PlansNext(env, t, jobs);
    hide PlanFor, NameAt, Plans;
    if i == n {
      a := |Plans(env, t, jobs[..n])|;
    } else {
      NameAtPrefix(t, jobs, n, i);
      a := PlannedAt(env, t, jobs[..n], i);
    }
  }

  /** The names of neighbours differ. */
  predicate NamesTell(t: Tools, jobs: seq<Job>) {
    forall i, j :: 0 <= i < j < |jobs| && Neighbours(jobs, i, j) ==> NameAt(t, jobs, i) != NameAt(t, jobs, j)
  }

  /** Distinctness of the plans' names, said of the jobs. */
  lemma {:induction false} DistinctNamesAt(env: Env, t: Tools, jobs: seq<Job>)
    ensures DistinctNames(Plans(env, t, jobs)) <==> NamesTell(t, jobs)
  {
    if jobs != [] {
      var n := |jobs| - 1;
      var front := jobs[..n];
      DistinctNamesAt(env, t, front);
      NamesTellNext(t, jobs);
      PlansNext(env, t, jobs);
      hide PlanFor, NameAt, Plans, NamesTell, NewNameTells;
      if IsExported(jobs, n) {
        NewNameDistinct(env, t, jobs);
      } else {
        assert NewNameTells(t, jobs) by { NothingNew(t, jobs); }
      }
    }
  }

  /** The last job's name differs from those of its neighbours. */
  predicate NewNameTells(t: Tools, jobs: seq<Job>)
    requires jobs != []
  {
    forall i :: 0 <= i < |jobs| - 1 && Neighbours(jobs, i, |jobs| - 1) ==>
      NameAt(t, jobs, i) != NameAt(t, jobs, |jobs| - 1)
  }

  lemma NothingNew(t: Tools, jobs: seq<Job>)
    requires jobs != [] && !IsExported(jobs, |jobs| - 1)
    ensures NewNameTells(t, jobs)
  {
  }

  lemma NamesTellNext(t: Tools, jobs: seq<Job>)
    requires jobs != []
    ensures NamesTell(t, jobs) <==> NamesTell(t, jobs[..|jobs| - 1]) && NewNameTells(t, jobs)
  {
    var n := |jobs| - 1;
    var front := jobs[..n];
    hide NameAt;
    forall i | 0 <= i < n ensures NameAt(t, front, i) == NameAt(t, jobs, i) {
      NameAtPrefix(t, jobs, n, i);
    }
    assert forall i, j :: 0 <= i < j < n ==> Neighbours(front, i, j) == Neighbours(jobs, i, j);
  }

  lemma NeighbourPlanned(env: Env, t: Tools, jobs: seq<Job>, i: nat) returns (a: nat)
    requires i < |jobs| - 1 && Neighbours(jobs, i, |jobs| - 1)
    ensures var ps := Plans(env, t, jobs[..|jobs| - 1]);
      a < |ps| && ps[a].job.cluster == jobs[|jobs| - 1].cluster && ps[a].name == NameAt(t, jobs, i)
  {
    NameAtPrefix(t, jobs, |jobs| - 1, i);
    a := PlannedAt(env, t, jobs[..|jobs| - 1], i);
    hide Plans, NameAt;
  }

  lemma PlanIsNeighbour(env: Env, t: Tools, jobs: seq<Job>, a: nat) returns (i: nat)
    requires jobs != [] && IsExported(jobs, |jobs| - 1) && a < |Plans(env, t, jobs[..|jobs| - 1])|
    requires Plans(env, t, jobs[..|jobs| - 1])[a].job.cluster == jobs[|jobs| - 1].cluster
    ensures i < |jobs| - 1 && Neighbours(jobs, i, |jobs| - 1)
    ensures Plans(env, t, jobs[..|jobs| - 1])[a].name == NameAt(t, jobs, i)
  {
    i := PlanOf(env, t, jobs[..|jobs| - 1], a);
    NameAtPrefix(t, jobs, |jobs| - 1, i);
  }

  lemma NewNameDistinct(env: Env, t: Tools, jobs: seq<Job>)
    requires jobs != [] && IsExported(jobs, |jobs| - 1)
    ensures DistinctNames(Plans(env, t, jobs)) <==>
      DistinctNames(Plans(env, t, jobs[..|jobs| - 1])) && NewNameTells(t, jobs)
  {
    var n := |jobs| - 1;
    var ps := Plans(env, t, jobs[..n]);
    var p := PlanFor(env, t, jobs[n], NameAt(t, jobs, n));
    PlansNext(env, t, jobs);
    assert p.name == NameAt(t, jobs, n) && p.job == jobs[n];
    hide NameAt, Plans, PlanFor, DistinctNames, Neighbours;
    NewestDistinct(ps, p);
    if NewNameTells(t, jobs) {
      forall a | 0 <= a < |ps| && ps[a].job.cluster == p.job.cluster ensures ps[a].name != p.name {
        var i := PlanIsNeighbour(env, t, jobs, a);
      }
    } else {
      var i :| 0 <= i < n && Neighbours(jobs, i, n) && NameAt(t, jobs, i) == NameAt(t, jobs, n);
      var a := NeighbourPlanned(env, t, jobs, i);
    }
  }

  lemma NewestDistinct(ps: seq<Plan>, p: Plan)
    ensures DistinctNames(ps + [p]) <==>
      DistinctNames(ps) && forall a :: 0 <= a < |ps| && ps[a].job.cluster == p.job.cluster ==> ps[a].name != p.name
  {
    var all := ps + [p];
    assert forall a :: 0 <= a < |ps| ==> all[a] == ps[a];
    assert all[|ps|] == p;
  }

  /**
   * With telling tags, exported names are pairwise distinct per cluster exactly when no job that is
   * the first of its name has, as its safe name, the safe name and tag of a job that repeats one.
   */
  lemma NamesDistinctExactly(env: Env, t: Tools, jobs: seq<Job>)
    requires TagsTell(jobs)
    ensures DistinctNames(Plans(env, t, jobs)) <==>
      forall i, j :: 0 <= i < |jobs| && 0 <= j < |jobs| && Neighbours(jobs, i, j)
                     && !Repeats(t, jobs, i) && Repeats(t, jobs, j) ==>
        Safe(t, jobs[i]) != Safe(t, jobs[j]) + "__" + Tag(jobs[j])
  {
    hide Plans, PlanFor, ExportName, Repeats, Safe, Tag;
    DistinctNamesAt(env, t, jobs);
    forall i, j | 0 <= i < j < |jobs| && Neighbours(jobs, i, j)
      ensures NameAt(t, jobs, i) != NameAt(t, jobs, j) <==> !Meets(t, jobs, i, j) && !Meets(t, jobs, j, i)
    {
      NamesMeet(t, jobs, i, j);
    }
    if i, j :| 0 <= i < |jobs| && 0 <= j < |jobs| && Neighbours(jobs, i, j) && Meets(t, jobs, i, j) {
      assert Neighbours(jobs, j, i);
    }
  }

  /** A first job of its name has the name that a repeating one is given. */
  predicate Meets(t: Tools, jobs: seq<Job>, i: nat, j: nat)
    requires i < |jobs| && j < |jobs|
  {
    !Repeats(t, jobs, i) && Repeats(t, jobs, j) && Safe(t, jobs[i]) == Safe(t, jobs[j]) + "__" + Tag(jobs[j])
  }

  lemma NamesMeet(t: Tools, jobs: seq<Job>, i: nat, j: nat)
    requires TagsTell(jobs) && i < j < |jobs| && Neighbours(jobs, i, j)
    ensures NameAt(t, jobs, i) != NameAt(t, jobs, j) <==> !Meets(t, jobs, i, j) && !Meets(t, jobs, j, i)
  {
    NameAtIs(t, jobs, i);
    NameAtIs(t, jobs, j);
    if Safe(t, jobs[i]) == Safe(t, jobs[j]) {
      assert Repeats(t, jobs, j);
    }
    hide Safe, Tag, Repeats, NameAt;
    if Repeats(t, jobs, i) && Repeats(t, jobs, j) && NameAt(t, jobs, i) == NameAt(t, jobs, j) {
      SameTag(Safe(t, jobs[i]), Tag(jobs[i]), Safe(t, jobs[j]), Tag(jobs[j]));
    }
  }

  /** In particular they are distinct when no safe name has a double underscore. */
  lemma NamesDistinct(env: Env, t: Tools, jobs: seq<Job>)
    requires TagsTell(jobs)
    requires forall i :: 0 <= i < |jobs| && IsExported(jobs, i) ==> !DoubleUnderscore(Safe(t, jobs[i]))
    ensures DistinctNames(Plans(env, t, jobs))
  {
    hide Plans, Safe, Tag, Repeats, DoubleUnderscore;
    NamesDistinctExactly(env, t, jobs);
    forall i, j | 0 <= i < |jobs| && 0 <= j < |jobs| && Neighbours(jobs, i, j)
      ensures Safe(t, jobs[i]) != Safe(t, jobs[j]) + "__" + Tag(jobs[j])
    {
      SuffixContains(Safe(t, jobs[j]), Tag(jobs[j]));
    }
  }

  function Clashing(id: nat, slurm: nat, name: string): Job {
    Job(id, "", Some(slurm), "c", Some("u"), Some(name), "s", "p")
  }

  /**
   * It is not enough that no job *name* has one: a slash becomes an underscore, so the third of
   * these jobs gets the name the second was given to keep clear of the first.
   */
  lemma SlashMakesNamesClash(env: Env, t: Tools)
    ensures var jobs := [Clashing(0, 7, "x"), Clashing(1, 8, "x"), Clashing(2, 9, "x_/8")];
      && (forall j :: j in jobs ==> !DoubleUnderscore(j.name.value))
      && !DistinctNames(Plans(env, t, jobs))
  {
    var a, b, c := Clashing(0, 7, "x"), Clashing(1, 8, "x"), Clashing(2, 9, "x_/8");
    ClashingNames(t);
    PlansOfThree(env, t, a, b, c);
    hide Plans, ExportName, NamesUsed, Safe, Tag, DoubleUnderscore;
    var ps := Plans(env, t, [a, b, c]);
    assert ps[1].name == ps[2].name && ps[1].job.cluster == ps[2].job.cluster;
    NoDoubleUnderscore();
  }

  lemma NoDoubleUnderscore()
    ensures !DoubleUnderscore("x") && !DoubleUnderscore("x_/8")
  {
    forall i | 0 <= i <= 4 ensures !OccursAt("x_/8", "__", i) {
      assert i + 2 <= 4 ==> "x_/8"[i] != '_' || "x_/8"[i + 1] != '_';
    }
  }

  lemma ClashingNames(t: Tools)
    ensures var a, b, c := Clashing(0, 7, "x"), Clashing(1, 8, "x"), Clashing(2, 9, "x_/8");
      ExportName(t, [a], b) == "x__8" && ExportName(t, [a, b], c) == "x__8"
  {
    var a, b, c := Clashing(0, 7, "x"), Clashing(1, 8, "x"), Clashing(2, 9, "x_/8");
    SafeFour('x', '_', '/', '8');
    assert SafeName("x") == "x" && SafeName("x_/8") == "x__8";
    assert Tag(b) == "8";
    assert [a][..0] == [] && [a, b][..1] == [a];
    hide SafeName;
    assert NamesUsed(t, [a]) == {("c", "x")};
    assert NamesUsed(t, [a, b]) == {("c", "x")};
  }

  lemma PlansOfThree(env: Env, t: Tools, a: Job, b: Job, c: Job)
    requires a.user.Some? && b.user.Some? && c.user.Some?
    ensures Plans(env, t, [a, b, c]) ==
      [PlanFor(env, t, a, ExportName(t, [], a)), PlanFor(env, t, b, ExportName(t, [a], b)),
       PlanFor(env, t, c, ExportName(t, [a, b], c))]
  {
    hide PlanFor, ExportName;
    assert [a, b, c][..2] == [a, b] && [a, b][..1] == [a] && [a][..0] == [];
    assert Plans(env, t, [a]) == [PlanFor(env, t, a, ExportName(t, [], a))];
    assert Plans(env, t, [a, b]) == Plans(env, t, [a]) + [PlanFor(env, t, b, ExportName(t, [a], b))];
    assert Plans(env, t, [a, b, c]) == Plans(env, t, [a, b]) + [PlanFor(env, t, c, ExportName(t, [a, b], c))];
  }

  lemma SafeFour(p: char, q: char, r: char, s: char)
    ensures SafeName([p, q, r, s]) == SafeName([p]) + SafeName([q]) + SafeName([r]) + SafeName([s])
  {
    assert [p, q, r, s][1..] == [q, r, s] && [q, r, s][1..] == [r, s] && [r, s][1..] == [s];
    assert SafeName([r, s]) == SafeName([r]) + SafeName([s]);
    assert SafeName([q, r, s]) == SafeName([q]) + SafeName([r, s]);
    assert SafeName([p, q, r, s]) == SafeName([p]) + SafeName([q, r, s]);
  }

  /* ---------- the paths ---------- */

  /** Cluster and name can be read back from the path, for names without a slash. */
  lemma PathInjective(t: Tools, c: string, n: string, d: string, m: string)
    requires ManifestPath(t, c, n) == ManifestPath(t, d, m) && '/' !in n && '/' !in m
    ensures c == d && n == m
  {
    var y := ".yaml";
    assert t.root + "/" + c + "/" + n + y == (t.root + "/" + c) + "/" + (n + y);
    assert t.root + "/" + d + "/" + m + y == (t.root + "/" + d) + "/" + (m + y);
    assert '/' !in n + y && '/' !in m + y;
    LastSeparator(t.root + "/" + c, n + y, t.root + "/" + d, m + y, '/');
    assert (t.root + "/" + c)[|t.root| + 1..] == c && (t.root + "/" + d)[|t.root| + 1..] == d;
    assert (n + y)[..|n|] == n && (m + y)[..|m|] == m;
  }

  predicate DistinctPaths(plans: seq<Plan>) {
    forall i, j :: 0 <= i < j < |plans| ==> plans[i].path != plans[j].path
  }

  lemma PathsDistinct(env: Env, t: Tools, jobs: seq<Job>)
    requires DistinctNames(Plans(env, t, jobs))
    requires forall p :: p in Plans(env, t, jobs) ==> '/' !in Tag(p.job)
    ensures DistinctPaths(Plans(env, t, jobs))
  {
    var ps := Plans(env, t, jobs);
    PlanShapes(env, t, jobs);
    hide Plans, Tag, Safe, ManifestPath, ManifestBody;
    forall i, j | 0 <= i < j < |ps| ensures ps[i].path != ps[j].path {
      assert ps[i] in ps && ps[j] in ps;
      NoSlash(t, ps[i]);
      NoSlash(t, ps[j]);
      if ps[i].path == ps[j].path {
        PathInjective(t, ps[i].job.cluster, ps[i].name, ps[j].job.cluster, ps[j].name);
      }
    }
  }

  lemma NoSlash(t: Tools, p: Plan)
    requires p.name == Safe(t, p.job) || Suffixed(t, p)
    requires '/' !in Tag(p.job)
    ensures '/' !in p.name
  {
    assert '/' !in Safe(t, p.job);
  }

  /* ---------- writing and pruning ---------- */

  type Repo = map<string, string>

  function Written(repo: Repo, plans: seq<Plan>): Repo {
    if plans == [] then repo
    else
      var p := plans[|plans| - 1];
      Written(repo, plans[..|plans| - 1])[p.path := p.body]
  }

  function Paths(plans: seq<Plan>): set<string> {
    set p | p in plans :: p.path
  }

  lemma {:induction false} WrittenBodies(repo: Repo, plans: seq<Plan>, i: nat)
    requires i < |plans| && DistinctPaths(plans)
    ensures plans[i].path in Written(repo, plans) && Written(repo, plans)[plans[i].path] == plans[i].body
  {
    if i < |plans| - 1 {
      WrittenBodies(repo, plans[..|plans| - 1], i);
    }
  }

  lemma {:induction false} WrittenElsewhere(repo: Repo, plans: seq<Plan>, path: string)
    ensures path in Written(repo, plans) <==> path in repo || path in Paths(plans)
    ensures path !in Paths(plans) && path in repo ==> Written(repo, plans)[path] == repo[path]
  {
    if plans != [] {
      var front := plans[..|plans| - 1];
      WrittenElsewhere(repo, front, path);
      assert forall p :: p in plans <==> p in front || p == plans[|plans| - 1];
    }
  }

  predicate HasHeader(body: string) {
    StartsWith(Trim(Split(body)[0]), HEADER_PREFIX)
  }

  /** The files the prune pass looks at: `.yaml` below the jobs tree. */
  predicate InTree(t: Tools, path: string) {
    StartsWith(path, t.root + "/") && |path| >= 5 && path[|path| - 5..] == ".yaml"
  }

  datatype DbRow = DbRow(cluster: ClusterId, name: Option<string>, sourceName: Option<string>,
                         sourceRef: Option<string>, status: Status, slurm: Option<nat>)

  type Db = map<nat, DbRow>

  predicate Holds(rows: Db, id: nat, cluster: ClusterId, name: string) {
    id in rows && rows[id].cluster == cluster && rows[id].sourceName == Some(name)
  }

  /** Some row holds the key and its job has ended. */
  predicate TerminalRow(rows: Db, cluster: ClusterId, name: string) {
    exists id | id in rows :: Holds(rows, id, cluster, name) && !Active(rows[id].status)
  }

  /** A file without the header is stale only when its row exists and is terminal. */
  predicate HandStale(env: Env, rows: Db, doc: Document) {
    doc.Fields? && !Missing(doc.name) && !Missing(doc.cluster)
    && doc.cluster.value in env.clusters
    && TerminalRow(rows, env.clusters[doc.cluster.value], doc.name.value)
  }

  predicate Stale(env: Env, rows: Db, body: string) {
    HasHeader(body) || HandStale(env, rows, env.load(body))
  }

  predicate Pruned(env: Env, t: Tools, rows: Db, plans: seq<Plan>, deletable: string -> bool, path: string,
                   body: string)
  {
    InTree(t, path) && path !in Paths(plans) && Stale(env, rows, body) && deletable(path)
  }

  /** The repository the export commits. */
  function Exported(env: Env, t: Tools, rows: Db, plans: seq<Plan>, deletable: string -> bool, repo: Repo): Repo {
    var w := Written(repo, plans);
    map path | path in w && !Pruned(env, t, rows, plans, deletable, path, w[path]) :: w[path]
  }

  lemma HeaderKept(rest: string)
    ensures HasHeader(ADOPTED_HEADER + "\n" + rest)
  {
    assert Plain(HEADER_PREFIX) && Plain(" \U{2014} auto-adopted from a live job.");
    assert Plain(ADOPTED_HEADER);
    SplitAtNewline(ADOPTED_HEADER, rest);
    SplitPlain(ADOPTED_HEADER);
    assert ADOPTED_HEADER[0] == '#' && Last(ADOPTED_HEADER) == '.';
    assert Trim(ADOPTED_HEADER) == ADOPTED_HEADER;
  }

  lemma PathInTree(env: Env, t: Tools, j: Job, name: string)
    ensures InTree(t, PlanFor(env, t, j, name).path)
  {
    var path := ManifestPath(t, j.cluster, name);
    assert path == (t.root + "/" + j.cluster + "/" + name) + ".yaml";
    assert path[..|t.root| + 1] == t.root + "/";
  }

  /**
   * When every deletion succeeds, the headed YAML files in the tree are exactly those written by
   * this pass; a file without the header is gone exactly when its row exists and is terminal.
   */
  lemma PruneExactly(env: Env, t: Tools, rows: Db, jobs: seq<Job>, deletable: string -> bool, repo: Repo, path: string)
    requires DistinctPaths(Plans(env, t, jobs)) && deletable(path)
    ensures var ps := Plans(env, t, jobs);
      var after := Exported(env, t, rows, ps, deletable, repo);
      && (path in after && InTree(t, path) && HasHeader(after[path]) <==> path in Paths(ps))
      && (path in repo && InTree(t, path) && !HasHeader(repo[path]) && path !in Paths(ps) ==>
            (path !in after <==> HandStale(env, rows, env.load(repo[path]))))
      && (path in repo && !InTree(t, path) && path !in Paths(ps) ==> path in after && after[path] == repo[path])
  {
    var ps := Plans(env, t, jobs);
    WrittenElsewhere(repo, ps, path);
    PlanShapes(env, t, jobs);
    if path in Paths(ps) {
      var i :| 0 <= i < |ps| && ps[i].path == path;
      WrittenBodies(repo, ps, i);
      var j := ps[i].job;
      HeaderKept(t.dump(ps[i].name, j.cluster, j.user.GetOr(""), j.partition, j.script));
      PathInTree(env, t, ps[i].job, ps[i].name);
    }
  }

  predicate HasEnded(r: DbRow, cluster: ClusterId, name: string) {
    && r.cluster == cluster && r.sourceName == Some(name)
    && (r.status == COMPLETED || r.status == FAILED || r.status == CANCELLED)
  }

  /** The terminal rows of a key are those completed, failed or cancelled. */
  lemma TerminalExactly(rows: Db, cluster: ClusterId, name: string)
    ensures TerminalRow(rows, cluster, name) <==> exists id | id in rows :: HasEnded(rows[id], cluster, name)
  {
    if TerminalRow(rows, cluster, name) {
      var id :| id in rows && Holds(rows, id, cluster, name) && !Active(rows[id].status);
      assert HasEnded(rows[id], cluster, name);
    }
    if id :| id in rows && HasEnded(rows[id], cluster, name) {
      assert Holds(rows, id, cluster, name);
    }
  }

  /** The exporter's own files are told by their first line. */
  lemma HeaderExactly(body: string)
    ensures HasHeader(body) <==> "# Managed by SlurmUI GitOps" <= Trim(Split(body)[0])
  {
  }

  /**
   * A file without that line is stale exactly when it names a job and a known cluster, and a row of that
   * cluster and name is completed, failed or cancelled.
   */
  lemma HandStaleExactly(env: Env, rows: Db, doc: Document)
    ensures HandStale(env, rows, doc) <==>
      && doc.Fields? && doc.name.Some? && doc.name.value != "" && doc.cluster.Some? && doc.cluster.value != ""
      && doc.cluster.value in env.clusters
      && exists id | id in rows :: HasEnded(rows[id], env.clusters[doc.cluster.value], doc.name.value)
  {
    if doc.Fields? && doc.name.Some? && doc.cluster.Some? && doc.cluster.value in env.clusters {
      TerminalExactly(rows, env.clusters[doc.cluster.value], doc.name.value);
    }
  }

  /** Nothing outside the jobs tree is ever pruned, nor anything that is not named `.yaml`. */
  lemma PruneSpares(env: Env, t: Tools, rows: Db, plans: seq<Plan>, deletable: string -> bool, repo: Repo, path: string)
    requires path in repo && path !in Paths(plans)
    requires !(t.root + "/" <= path) || |path| < 5 || path[|path| - 5..] != ".yaml"
    ensures var after := Exported(env, t, rows, plans, deletable, repo);
      path in after && after[path] == repo[path]
  {
    WrittenElsewhere(repo, plans, path);
  }

  /* ---------- the row patches ---------- */

  /** The `(clusterId, sourceName)` unique constraint. */
  ghost predicate UniqueKeys(rows: Db) {
    forall a, b :: a in rows && b in rows && a != b && rows[a].sourceName.Some? ==>
      rows[a].cluster != rows[b].cluster || rows[a].sourceName != rows[b].sourceName
  }

  /** An update the constraint accepts. */
  predicate CanPatch(rows: Db, p: Plan) {
    p.job.id in rows
    && forall id :: id in rows && id != p.job.id ==> !Holds(rows, id, rows[p.job.id].cluster, p.name)
  }

  /** The update, or nothing: its error is swallowed. */
  function Patch(rows: Db, p: Plan): Db {
    if !CanPatch(rows, p) then rows
    else
      var r := rows[p.job.id];
      rows[p.job.id := r.(sourceName := Some(p.name), sourceRef := Some(p.ref),
                          name := if p.backfill.GetOr("") != "" then p.backfill else r.name)]
  }

  function PatchAll(rows: Db, plans: seq<Plan>): Db {
    if plans == [] then rows else Patch(PatchAll(rows, plans[..|plans| - 1]), plans[|plans| - 1])
  }

  predicate DistinctIds(plans: seq<Plan>) {
    forall i, j :: 0 <= i < j < |plans| ==> plans[i].job.id != plans[j].job.id
  }

  lemma {:induction false} PatchesKeep(rows: Db, plans: seq<Plan>)
    requires UniqueKeys(rows)
    ensures var r := PatchAll(rows, plans);
      && UniqueKeys(r) && r.Keys == rows.Keys
      && forall id :: id in rows ==>
           r[id].cluster == rows[id].cluster && r[id].status == rows[id].status && r[id].slurm == rows[id].slurm
  {
    if plans != [] {
      PatchesKeep(rows, plans[..|plans| - 1]);
    }
  }

  lemma {:induction false} PatchElsewhere(rows: Db, plans: seq<Plan>, id: nat)
    requires forall i :: 0 <= i < |plans| ==> plans[i].job.id != id
    ensures id in PatchAll(rows, plans) <==> id in rows
    ensures id in rows ==> PatchAll(rows, plans)[id] == rows[id]
  {
    if plans != [] {
      PatchElsewhere(rows, plans[..|plans| - 1], id);
    }
  }

  /** The i-th patch, when its turn comes, is accepted. */
  predicate IsPatched(rows: Db, plans: seq<Plan>, i: nat)
    requires i < |plans|
  {
    CanPatch(PatchAll(rows, plans[..i]), plans[i])
  }

  /** An accepted patch stays: the row carries its own plan's name and reference; a name the user has set is kept. */
  lemma {:induction false} PatchLands(rows: Db, plans: seq<Plan>, i: nat)
    requires DistinctIds(plans) && i < |plans| && IsPatched(rows, plans, i)
    ensures var r, id := PatchAll(rows, plans), plans[i].job.id;
      && id in r && id in rows && r[id].sourceName == Some(plans[i].name) && r[id].sourceRef == Some(plans[i].ref)
      && r[id].name == if plans[i].backfill.Some? && plans[i].backfill.value != "" then plans[i].backfill
                       else rows[id].name
  {
    var front := plans[..|plans| - 1];
    if i < |plans| - 1 {
      assert front[..i] == plans[..i];
      PatchLands(rows, front, i);
    } else {
      PatchElsewhere(rows, front, plans[i].job.id);
    }
  }

  /** The rows the reconciler sees: those with a source name, under their unique key. */
  ghost predicate OwnedView(rows: Db, owned: map<Key, Row>) {
    && (forall id :: id in rows && rows[id].sourceName.Some? ==>
          var k := Key(rows[id].cluster, rows[id].sourceName.value);
          k in owned && owned[k] == Row(id, rows[id].sourceRef, rows[id].status, rows[id].slurm))
    && (forall k :: k in owned ==> Holds(rows, owned[k].id, k.cluster, k.name))
  }

  /* ---------- export is a fixed point of reconcile ---------- */

  /** The fields a manifest needs, and the lookups that resolve it. */
  predicate Exportable(env: Env, rows: Db, p: Plan) {
    && p.name != "" && p.job.cluster != "" && p.job.user.GetOr("") != "" && p.job.partition != "" && p.job.script != ""
    && p.job.id in rows
    && p.job.cluster in env.clusters && env.clusters[p.job.cluster] == rows[p.job.id].cluster
    && p.job.user.GetOr("") in env.users
  }

  /** Loading what was dumped (under a comment line) gives the fields back. */
  predicate LoadsBack(env: Env, p: Plan) {
    env.load(p.body) ==
      Fields(Some("Job"), Some(p.name), Some(p.job.cluster), p.job.user, Some(p.job.partition), Some(p.job.script))
  }

  lemma {:induction false} ParsedIndex(env: Env, files: seq<File>, f: File, m: Manifest) returns (i: nat)
    requires f in files && Yields(env, f, m)
    ensures i < |Parsed(env, files)| && Parsed(env, files)[i] == m
  {
    var front, last := files[..|files| - 1], files[|files| - 1];
    if f == last {
      i := |Parsed(env, front)|;
    } else {
      assert f in front;
      i := ParsedIndex(env, front, f, m);
    }
  }

  lemma AdoptedManifest(env: Env, t: Tools, rows: Db, p: Plan)
    requires p == PlanFor(env, t, p.job, p.name) && Exportable(env, rows, p) && LoadsBack(env, p) && p.job.user.Some?
    ensures var j := p.job;
      var m := Manifest(p.path, env.hash(p.body), p.name, j.cluster, j.user.value, j.partition, j.script);
      && Yields(env, File(p.path, p.body), m) && SourceRef(m) == p.ref && Resolvable(env, m)
      && KeyOf(env, m) == Key(rows[p.job.id].cluster, p.name)
  {
    PathInTree(env, t, p.job, p.name);
  }

  /**
   * An adopted manifest is read back as one that can be reconciled exactly when all its fields are
   * non-empty and its cluster and user are known; otherwise its patched row is up for removal.
   */
  lemma AdoptableExactly(env: Env, t: Tools, p: Plan)
    requires p == PlanFor(env, t, p.job, p.name) && LoadsBack(env, p) && p.job.user.Some?
    ensures (exists m :: Yields(env, File(p.path, p.body), m) && Resolvable(env, m)) <==>
      && p.name != "" && p.job.cluster != "" && p.job.user.value != "" && p.job.partition != "" && p.job.script != ""
      && p.job.cluster in env.clusters && p.job.user.value in env.users
  {
    PathInTree(env, t, p.job, p.name);
    var f := File(p.path, p.body);
    var m := Manifest(p.path, env.hash(p.body), p.name, p.job.cluster, p.job.user.value, p.job.partition, p.job.script);
    assert IsYaml(f.path);
    assert ParseFile(env, f).Ok? ==> Yields(env, f, m);
  }

  /**
   * After an export that wrote its manifests and pushed them, the next reconcile pass over the
   * resulting repository (whatever else is in it, whatever the cluster answers) neither cancels
   * nor deletes nor resubmits an exported job whose row was patched, not even when a hand-written
   * manifest claims its name.
   */
  lemma ExportIsFixedPoint(env: Env, t: Tools, rows: Db, jobs: seq<Job>, deletable: string -> bool, repo: Repo,
                           w: World, files: seq<File>, conflicts: set<Key>, listing: seq<Key>, i: nat)
    requires i < |Plans(env, t, jobs)|
    requires DistinctPaths(Plans(env, t, jobs)) && DistinctIds(Plans(env, t, jobs))
    requires UniqueKeys(rows) && IsPatched(rows, Plans(env, t, jobs), i)
    requires Exportable(env, rows, Plans(env, t, jobs)[i]) && LoadsBack(env, Plans(env, t, jobs)[i])
    requires OwnNumbers(w) && OwnedView(PatchAll(rows, Plans(env, t, jobs)), w.owned)
    requires var after := Exported(env, t, rows, Plans(env, t, jobs), deletable, repo);
      forall path :: path in after ==> File(path, after[path]) in files
    requires AreConflicts(env, Parsed(env, files), conflicts)
    ensures var p := Plans(env, t, jobs)[i];
      var k := Key(rows[p.job.id].cluster, p.name);
      && k in w.owned && w.owned[k].id == p.job.id
      && LeftAlone(Pass(w, ScanSummary(env, files), {}, []), Reconciled(env, w, files, conflicts, listing), k)
  {
    var ps := Plans(env, t, jobs);
    var p := ps[i];
    PlanShapes(env, t, jobs);
    WrittenBodies(repo, ps, i);
    assert p in ps && p.path in Paths(ps);
    var after := Exported(env, t, rows, ps, deletable, repo);
    assert p.path in after && after[p.path] == p.body;
    AdoptedManifest(env, t, rows, p);
    hide Plans, PlanFor, Written, Exported, Parsed, Reconciled, ScanSummary, Safe, ExportName, NamesUsed, PatchAll;
    var m := Manifest(p.path, env.hash(p.body), p.name, p.job.cluster, p.job.user.value, p.job.partition, p.job.script);
    var n := ParsedIndex(env, files, File(p.path, p.body), m);
    PatchesKeep(rows, ps);
    PatchLands(rows, ps, i);
    MatchingRowLeftAlone(env, w, files, conflicts, listing, n, Key(rows[p.job.id].cluster, p.name));
  }

  /**
   * When every call succeeds, exactly which exported rows come through the next pass as they were:
   * those whose key some resolvable manifest asks for with the reference the export wrote, or, when
   * several manifests claim the key, any resolvable one at all. A row whose own manifest is not
   * adoptable and whose key no other asks for is dropped, one that another manifest asks for alone
   * is replaced.
   */
  lemma ExportSurvivesExactly(env: Env, rows: Db, plans: seq<Plan>, w: World, files: seq<File>,
                              conflicts: set<Key>, listing: seq<Key>, i: nat)
    requires i < |plans| && DistinctIds(plans) && UniqueKeys(rows) && IsPatched(rows, plans, i)
    requires AllSucceed(env) && AreConflicts(env, Parsed(env, files), conflicts)
    requires IsListing(listing, Looped(env, w, files, conflicts).w.owned)
    requires OwnedView(PatchAll(rows, plans), w.owned)
    ensures plans[i].job.id in rows
    ensures var k := Key(rows[plans[i].job.id].cluster, plans[i].name);
      && k in w.owned
      && (SameAt(w.owned, Reconciled(env, w, files, conflicts, listing).w.owned, k) <==>
            if k in conflicts then Sought(env, Parsed(env, files), k)
            else SoughtAs(env, Parsed(env, files), k, Some(plans[i].ref)))
  {
    hide Parsed, Reconciled, Looped, IsListing, PatchAll, Sought, SoughtAs;
    PatchesKeep(rows, plans);
    PatchLands(rows, plans, i);
    RowSurvivesExactly(env, w, files, conflicts, listing, Key(rows[plans[i].job.id].cluster, plans[i].name));
  }
}
