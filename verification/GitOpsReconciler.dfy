/** The reconcile pass as it runs: loops over files, manifests and rows that update one state. */
module GitOpsReconciler {
  import opened Wrappers
  import M = GitOpsModel

  class Reconciler {
    const env: M.Env
    var owned: map<M.Key, M.Row>
    ghost var live: set<M.SlurmJob> // what is live in Slurm
    var rows: nat                   // row ids handed out
    var slurms: map<M.ClusterId, nat> // the next job number of each cluster
    var submits: nat                // calls of sbatch so far
    var cancels: nat                // calls of scancel so far
    var summary: M.Summary
    var seenKeys: set<M.Key>
    ghost var launches: seq<M.Launch>

    ghost function World(): M.World
      reads this
    {
      M.World(owned, live, rows, slurms, submits, cancels)
    }

    ghost function State(): M.Pass
      reads this
    {
      M.Pass(World(), summary, seenKeys, launches)
    }

    constructor (env: M.Env, ghost w: M.World, owned: map<M.Key, M.Row>, rows: nat,
                 slurms: map<M.ClusterId, nat>, submits: nat, cancels: nat)
      requires w == M.World(owned, w.live, rows, slurms, submits, cancels)
      ensures this.env == env && State() == M.Pass(w, M.NO_SUMMARY, {}, [])
    {
      this.env := env;
      this.owned, this.rows, this.slurms, this.submits, this.cancels := owned, rows, slurms, submits, cancels;
      live := w.live;
      summary, seenKeys, launches := M.NO_SUMMARY, {}, [];
    }

    /** The scan: every YAML file is counted, and either parsed or skipped. */
    method Scan(files: seq<M.File>) returns (parsed: seq<M.Manifest>)
      requires summary == M.NO_SUMMARY
      modifies this`summary
      ensures parsed == M.Parsed(env, files) && summary == M.ScanSummary(env, files)
    {
      parsed := [];
      hide M.Scanned, M.ParsedFrom;
      for i := 0 to |files|
        invariant parsed == M.Parsed(env, files[..i]) && summary == M.ScanSummary(env, files[..i])
      {
        assert files[..i + 1][..i] == files[..i];
        var m := ScanFile(files[i]);
        parsed := parsed + m;
      }
      assert files[..|files|] == files;
    }

    method ScanFile(file: M.File) returns (parsed: seq<M.Manifest>)
      modifies this`summary
      ensures parsed == M.ParsedFrom(env, file) && summary == M.Scanned(env, old(summary), file)
    {
      hide M.IsYaml, M.ParseFile;
      if !M.IsYaml(file.path) {
        return [];
      }
      summary := summary.(scanned := summary.scanned + 1);
      var res := M.ParseFile(env, file);
      if res.Err? {
        summary := summary.(skipped := summary.skipped + [(file.path, M.BadManifest(res.error))]);
        return [];
      }
      parsed := [res.value];
    }

    /** The first pass: keys that more than one manifest resolves to. */
    method DetectConflicts(parsed: seq<M.Manifest>) returns (conflictKeys: set<M.Key>)
      ensures M.AreConflicts(env, parsed, conflictKeys)
    {
      var counts: map<M.Key, seq<string>> := map[];
      for i := 0 to |parsed|
        invariant forall k :: M.Claims(env, parsed[..i], k) == if k in counts then |counts[k]| else 0
      {
        var m := parsed[i];
        ghost var before := counts;
        if m.cluster in env.clusters {
          var key := M.Key(env.clusters[m.cluster], m.name);
          var arr := if key in counts then counts[key] else [];
          counts := counts[key := arr + [m.relPath]];
        }
        forall k ensures M.Claims(env, parsed[..i + 1], k) == if k in counts then |counts[k]| else 0 {
          assert parsed[..i + 1][..i] == parsed[..i];
          assert M.Claims(env, parsed[..i + 1], k)
              == M.Claims(env, parsed[..i], k) + if M.ClaimsKey(env, m, k) then 1 else 0;
        }
      }
      assert parsed[..|parsed|] == parsed;
      conflictKeys := set k | k in counts && |counts[k]| > 1;
    }

    method SubmitJob(key: M.Key, m: M.Manifest, ghost previous: Option<nat>) returns (ok: bool)
      modifies this
      ensures State() == old(State()).(w := M.Submit(env, old(World()), key, M.SourceRef(m)),
                                       launches := old(launches) + [M.LaunchOf(env, old(World()), key, previous, m)])
      ensures ok == M.Submitted(env, old(World()))
    {
      launches := launches + [M.LaunchOf(env, World(), key, previous, m)];
      var ref := M.SourceRef(m);
      var outcome := env.submit(submits);
      submits := submits + 1;
      if outcome == M.Refused {
        return false;
      }
      var id := rows;
      rows := rows + 1;
      var number := M.NextNumber(slurms, key.cluster);
      match outcome {
        case Refused =>
        case SbatchFailed(leaked) =>
          owned := owned[key := M.Row(id, Some(ref), M.FAILED, None)];
          if leaked {
            live := live + {M.SlurmJob(key.cluster, number)};
          }
        case Started =>
          owned := owned[key := M.Row(id, Some(ref), M.RUNNING, Some(number))];
          live := live + {M.SlurmJob(key.cluster, number)};
      }
      slurms := slurms[key.cluster := number + 1];
      ok := outcome == M.Started;
    }

    method CancelSlurmJob(key: M.Key) returns (ok: bool)
      requires key in owned
      modifies this`owned, this`live, this`cancels
      ensures World() == M.Cancel(env, old(World()), key).0 && ok == M.Cancel(env, old(World()), key).1
    {
      var job := owned[key];
      if job.slurm == None {
        owned := owned[key := job.(status := M.CANCELLED)];
        return true;
      }
      if key.cluster in env.ssh {
        var outcome := env.cancel(cancels);
        cancels := cancels + 1;
        if outcome != M.Denied {
          live := live - {M.SlurmJob(key.cluster, job.slurm.value)};
        }
        if outcome != M.Acked {
          return false;
        }
      }
      owned := owned[key := job.(status := M.CANCELLED)];
      ok := true;
    }

    method DeleteRow(key: M.Key)
      modifies this`owned
      ensures World() == M.Drop(old(World()), key)
    {
      owned := map j | j in owned && j != key :: owned[j];
    }

    /** One turn of the manifest loop. */
    method Handle(conflictKeys: set<M.Key>, m: M.Manifest)
      modifies this
      ensures State() == M.Handle(env, conflictKeys, old(State()), m)
    {
      hide M.Submit, M.Cancel, M.Drop;
      if m.cluster !in env.clusters {
        summary := summary.(skipped := summary.skipped + [(m.relPath, M.ClusterNotFound)]);
        return;
      }
      if m.user !in env.users {
        summary := summary.(skipped := summary.skipped + [(m.relPath, M.UserNotFound)]);
        return;
      }
      var key := M.Key(env.clusters[m.cluster], m.name);
      seenKeys := seenKeys + {key};
      if key in conflictKeys {
        summary := summary.(skipped := summary.skipped + [(m.relPath, M.NameConflict)]);
        return;
      }
      var sourceRef := M.SourceRef(m);
      if key !in owned {
        var ok := SubmitJob(key, m, None);
        if ok {
          summary := summary.(submitted := summary.submitted + 1);
        } else {
          summary := summary.(errors := summary.errors + [m.relPath]);
        }
        return;
      }
      if owned[key].sourceRef == Some(sourceRef) {
        summary := summary.(same := summary.same + 1);
        return;
      }
      Resubmit(key, m);
    }

    /** Content changed: cancel if active, drop the stale row, submit again. */
    method Resubmit(key: M.Key, m: M.Manifest)
      requires key in owned
      modifies this
      ensures State() == M.Resubmit(env, old(State()), key, m)
    {
      hide M.Submit, M.Cancel, M.Drop;
      var existing := owned[key];
      if M.Active(existing.status) {
        var ok := CancelSlurmJob(key);
        if !ok {
          summary := summary.(errors := summary.errors + [m.relPath]);
          return;
        }
        summary := summary.(cancelled := summary.cancelled + 1);
      }
      DeleteRow(key);
      var submitted := SubmitJob(key, m, existing.slurm);
      if submitted {
        summary := summary.(resubmitted := summary.resubmitted + 1);
      } else {
        summary := summary.(errors := summary.errors + [m.relPath]);
      }
    }

    /** The removal pass over the rows the database lists. */
    method RemoveUnseen(listing: seq<M.Key>)
      requires M.IsListing(listing, owned)
      modifies this
      ensures State() == M.RemoveAll(env, old(State()), listing)
    {
      ghost var was := State();
      for i := 0 to |listing|
        invariant State() == M.RemoveAll(env, was, listing[..i])
        invariant forall j :: i <= j < |listing| ==> listing[j] in owned
      {
        assert listing[..i + 1][..i] == listing[..i];
        var key := listing[i];
        if key !in seenKeys {
          RemoveRow(key);
        }
      }
      assert listing[..|listing|] == listing;
    }

    method RemoveRow(key: M.Key)
      requires key in owned && key !in seenKeys
      modifies this
      ensures State() == M.Remove(env, old(State()), key)
      ensures forall k :: k in old(owned) && k != key ==> k in owned
    {
      if M.Active(owned[key].status) {
        var _ := CancelSlurmJob(key);
      }
      DeleteRow(key);
      summary := summary.(cancelled := summary.cancelled + 1);
    }

    /** The owned rows, in some order. */
    method FindOwned() returns (listing: seq<M.Key>)
      ensures M.IsListing(listing, owned)
    {
      listing := [];
      var left := owned.Keys;
      while left != {}
        invariant left <= owned.Keys
        invariant forall i :: 0 <= i < |listing| ==> listing[i] in owned && listing[i] !in left
        invariant forall k :: k in owned && k !in left ==> k in listing
        invariant forall i, j :: 0 <= i < j < |listing| ==> listing[i] != listing[j]
        decreases |left|
      {
        var k :| k in left;
        left := left - {k};
        listing := listing + [k];
      }
    }

    /** `runReconcile` on a checked-out repository. */
    method RunReconcile(files: seq<M.File>) returns (ghost conflicts: set<M.Key>, ghost rowsListed: seq<M.Key>)
      requires summary == M.NO_SUMMARY && seenKeys == {} && launches == []
      modifies this
      ensures M.AreConflicts(env, M.Parsed(env, files), conflicts)
      ensures M.IsListing(rowsListed, M.Looped(env, old(World()), files, conflicts).w.owned)
      ensures State() == M.Reconciled(env, old(World()), files, conflicts, rowsListed)
    {
      ghost var w := World();
      var parsed := Scan(files);
      var conflictKeys := DetectConflicts(parsed);
      ghost var start := State();
      hide M.Handle;
      for i := 0 to |parsed|
        invariant State() == M.HandleAll(env, conflictKeys, start, parsed[..i])
      {
        assert parsed[..i + 1][..i] == parsed[..i];
        Handle(conflictKeys, parsed[i]);
      }
      assert parsed[..|parsed|] == parsed;
      var listing := FindOwned();
      RemoveUnseen(listing);
      conflicts, rowsListed := conflictKeys, listing;
    }
  }
}
