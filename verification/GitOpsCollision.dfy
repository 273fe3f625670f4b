/**
 * When the rows cannot be patched after an export (web/lib/gitops-jobs.ts): exactly when every patch
 * goes through, and what the next reconcile pass makes of a job whose patch was swallowed because
 * another row still holds its name.
 */
module GitOpsCollision {
  import opened Wrappers
  import opened GitOpsModel
  import opened GitOpsReconcile
  import opened GitOpsExport

  /* ---------- when every patch goes through ---------- */

  /** No patch of these is swallowed. */
  predicate PatchesSucceed(rows: Db, plans: seq<Plan>) {
    plans == [] ||
    (PatchesSucceed(rows, plans[..|plans| - 1])
     && CanPatch(PatchAll(rows, plans[..|plans| - 1]), plans[|plans| - 1]))
  }

  lemma {:induction false} SucceedAt(rows: Db, plans: seq<Plan>, i: nat)
    requires PatchesSucceed(rows, plans) && i < |plans|
    ensures IsPatched(rows, plans, i)
  {
    if i < |plans| - 1 {
      assert plans[..|plans| - 1][..i] == plans[..i];
      SucceedAt(rows, plans[..|plans| - 1], i);
    }
  }

  predicate Patches(plans: seq<Plan>, id: nat) {
    exists i | 0 <= i < |plans| :: plans[i].job.id == id
  }

  /**
   * Said of the rows before the first patch: the plan's row is there; any other row that holds its
   * key is patched before; and none of those patched before is given the same name in its cluster.
   */
  predicate HasRoom(rows: Db, earlier: seq<Plan>, p: Plan) {
    && p.job.id in rows
    && (forall id | id in rows && id != p.job.id && Holds(rows, id, rows[p.job.id].cluster, p.name) ::
          Patches(earlier, id))
    && (forall e | e in earlier && e.job.id in rows && rows[e.job.id].cluster == rows[p.job.id].cluster ::
          e.name != p.name)
  }

  lemma CanPatchExactly(rows: Db, earlier: seq<Plan>, p: Plan)
    requires UniqueKeys(rows) && PatchesSucceed(rows, earlier) && DistinctIds(earlier + [p])
    ensures CanPatch(PatchAll(rows, earlier), p) <==> HasRoom(rows, earlier, p)
  {
    var r := PatchAll(rows, earlier);
    PatchesKeep(rows, earlier);
    forall i | 0 <= i < |earlier|
      ensures earlier[i].job.id in rows && r[earlier[i].job.id].sourceName == Some(earlier[i].name)
      ensures earlier[i].job.id != p.job.id
    {
      assert (earlier + [p])[i] == earlier[i] && (earlier + [p])[|earlier|] == p;
      EarlierDistinct(earlier, p);
      SucceedAt(rows, earlier, i);
      PatchLands(rows, earlier, i);
    }
    if p.job.id in rows {
      var c := rows[p.job.id].cluster;
      forall id | id in rows && !Patches(earlier, id) ensures Holds(r, id, c, p.name) == Holds(rows, id, c, p.name) {
        PatchElsewhere(rows, earlier, id);
      }
      if CanPatch(r, p) {
        forall e | e in earlier && e.job.id in rows && rows[e.job.id].cluster == c ensures e.name != p.name {
          assert !Holds(r, e.job.id, c, p.name);
        }
        forall id | id in rows && id != p.job.id && Holds(rows, id, c, p.name) ensures Patches(earlier, id) {
          assert !Holds(r, id, c, p.name);
        }
      } else {
        var id :| id in r && id != p.job.id && Holds(r, id, c, p.name);
        if Patches(earlier, id) {
          var i :| 0 <= i < |earlier| && earlier[i].job.id == id;
          assert earlier[i] in earlier;
        }
      }
    }
  }

  lemma EarlierDistinct(earlier: seq<Plan>, p: Plan)
    requires DistinctIds(earlier + [p])
    ensures DistinctIds(earlier)
  {
    assert forall i :: 0 <= i < |earlier| ==> earlier[i] == (earlier + [p])[i];
  }

  /** All patches go through exactly when each plan has room, judged by the rows before the first one. */
  lemma {:induction false} PatchesSucceedExactly(rows: Db, plans: seq<Plan>)
    requires UniqueKeys(rows) && DistinctIds(plans)
    ensures PatchesSucceed(rows, plans) <==> forall i :: 0 <= i < |plans| ==> HasRoom(rows, plans[..i], plans[i])
  {
    if plans != [] {
      var n := |plans| - 1;
      var front := plans[..n];
      PatchesSucceedExactly(rows, front);
      assert front + [plans[n]] == plans;
      hide HasRoom, CanPatch, DistinctIds;
      forall i | 0 <= i < n ensures front[..i] == plans[..i] && front[i] == plans[i] {
      }
      if PatchesSucceed(rows, front) {
        CanPatchExactly(rows, front, plans[n]);
      }
    }
  }

  /* ---------- a patch that is swallowed ---------- */

  /** A row without a name, whose key another row holds that is not patched itself, stays without one. */
  lemma {:induction false} Swallowed(rows: Db, plans: seq<Plan>, i: nat, holder: nat)
    requires UniqueKeys(rows) && DistinctIds(plans) && i < |plans| && plans[i].job.id in rows
    requires !Patches(plans, holder) && Holds(rows, holder, rows[plans[i].job.id].cluster, plans[i].name)
    ensures var r := PatchAll(rows, plans);
      && holder in r && r[holder] == rows[holder]
      && plans[i].job.id in r && r[plans[i].job.id] == rows[plans[i].job.id]
  {
    var n := |plans| - 1;
    var front, id := plans[..n], plans[i].job.id;
    assert id != holder;
    forall j | 0 <= j < |plans| ensures plans[j].job.id != holder {
    }
    PatchElsewhere(rows, plans, holder);
    PatchElsewhere(rows, front, holder);
    if i < n {
      assert !Patches(front, holder) by {
        forall j | 0 <= j < |front| ensures front[j].job.id != holder {
          assert front[j] == plans[j];
        }
      }
      Swallowed(rows, front, i, holder);
    } else {
      PatchElsewhere(rows, front, id);
      assert Holds(PatchAll(rows, front), holder, rows[id].cluster, plans[i].name);
    }
  }

  /** Job numbers are unique per cluster in the Job table. */
  predicate OwnJobs(rows: Db) {
    forall a, b | a in rows && b in rows && a != b && rows[a].cluster == rows[b].cluster && rows[a].slurm.Some? ::
      rows[a].slurm != rows[b].slurm
  }

  /**
   * A finished row still holds the name under which a running job, so far without one, is exported.
   * The patch is swallowed, and the next pass takes the new manifest for a change of the old row:
   * it submits the manifest exactly when the old row's reference is another, whatever the cluster
   * answers, while the exported job goes on running.
   */
  lemma RunsTwice(env: Env, t: Tools, rows: Db, jobs: seq<Job>, w: World, files: seq<File>, conflicts: set<Key>,
                  listing: seq<Key>, i: nat, holder: nat)
    requires i < |Plans(env, t, jobs)| && DistinctIds(Plans(env, t, jobs)) && UniqueKeys(rows) && OwnJobs(rows)
    requires Exportable(env, rows, Plans(env, t, jobs)[i]) && LoadsBack(env, Plans(env, t, jobs)[i])
    requires var p := Plans(env, t, jobs)[i];
      && rows[p.job.id].sourceName == None && rows[p.job.id].slurm.Some?
      && Holds(rows, holder, rows[p.job.id].cluster, p.name) && !Active(rows[holder].status)
      && !Patches(Plans(env, t, jobs), holder)
      && File(p.path, p.body) in files && Key(rows[p.job.id].cluster, p.name) !in conflicts
    requires AreConflicts(env, Parsed(env, files), conflicts) && OwnedView(PatchAll(rows, Plans(env, t, jobs)), w.owned)
    requires var r := rows[Plans(env, t, jobs)[i].job.id];
      SlurmJob(r.cluster, r.slurm.value) in w.live && r.slurm.value < NextNumber(w.slurms, r.cluster)
    ensures var p := Plans(env, t, jobs)[i];
      var r, k := rows[p.job.id], Key(rows[p.job.id].cluster, p.name);
      var pass := Reconciled(env, w, files, conflicts, listing);
      && k in w.owned && w.owned[k].id == holder
      && ((exists l :: l in pass.launches && l.key == k) <==> rows[holder].sourceRef != Some(p.ref))
      && SlurmJob(r.cluster, r.slurm.value) in pass.w.live
      && forall l :: l in pass.launches ==> SlurmJob(r.cluster, r.slurm.value) in l.live
  {
    var ps := Plans(env, t, jobs);
    var p := ps[i];
    var r, k := rows[p.job.id], Key(rows[p.job.id].cluster, p.name);
    var s := SlurmJob(r.cluster, r.slurm.value);
    PlanShapes(env, t, jobs);
    AdoptedManifest(env, t, rows, p);
    Swallowed(rows, ps, i, holder);
    PatchesKeep(rows, ps);
    StrayJob(rows, PatchAll(rows, ps), w, p.job.id);
    hide Plans, PlanFor, Parsed, Reconciled, ScanSummary, Safe, PatchAll, OwnJobs, UniqueKeys, DistinctIds, Patches;
    var m := Manifest(p.path, env.hash(p.body), p.name, p.job.cluster, p.job.user.value, p.job.partition, p.job.script);
    var n := ParsedIndex(env, files, File(p.path, p.body), m);
    assert k in w.owned && w.owned[k].id == holder && w.owned[k].sourceRef == rows[holder].sourceRef;
    PassLaunchesExactly(env, w, files, conflicts, listing, n);
    PassSpares(env, w, files, conflicts, listing, s);
  }

  lemma StrayJob(rows: Db, after: Db, w: World, id: nat)
    requires OwnJobs(rows) && OwnedView(after, w.owned) && after.Keys == rows.Keys
    requires forall j :: j in rows ==> after[j].cluster == rows[j].cluster && after[j].slurm == rows[j].slurm
    requires id in rows && rows[id].slurm.Some? && after[id].sourceName == None
    requires SlurmJob(rows[id].cluster, rows[id].slurm.value) in w.live
    requires rows[id].slurm.value < NextNumber(w.slurms, rows[id].cluster)
    ensures Stray(w, SlurmJob(rows[id].cluster, rows[id].slurm.value))
  {
    var s := SlurmJob(rows[id].cluster, rows[id].slurm.value);
    forall k | k in w.owned ensures !Names(k, w.owned[k], s) {
      var j := w.owned[k].id;
      assert Holds(after, j, k.cluster, k.name);
      assert w.owned[k] == Row(j, after[j].sourceRef, after[j].status, after[j].slurm);
    }
  }
}
