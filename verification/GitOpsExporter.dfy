/** The export as it runs: plan and write, prune, and patch the rows once the push has landed. */
module GitOpsExporter {
  import opened Wrappers
  import M = GitOpsModel
  import E = GitOpsExport

  class Exporter {
    const env: M.Env
    const tools: E.Tools
    var repo: E.Repo
    var rows: E.Db
    var namesUsed: set<(string, string)>
    var writtenPaths: set<string>
    var patches: seq<E.Plan>

    constructor (env: M.Env, tools: E.Tools, repo: E.Repo, rows: E.Db)
      ensures this.env == env && this.tools == tools && this.repo == repo && this.rows == rows
      ensures namesUsed == {} && writtenPaths == {} && patches == []
    {
      this.env, this.tools, this.repo, this.rows := env, tools, repo, rows;
      namesUsed, writtenPaths, patches := {}, {}, [];
    }

    /** The export loop: pick a free name, write the manifest, remember the patch. */
    method WriteManifests(jobs: seq<E.Job>)
      requires namesUsed == {} && writtenPaths == {} && patches == []
      modifies this
      ensures rows == old(rows) && patches == E.Plans(env, tools, jobs)
      ensures repo == E.Written(old(repo), patches) && writtenPaths == E.Paths(patches)
    {
      hide E.PlanFor, E.ExportName, E.Safe;
      for i := 0 to |jobs|
        invariant rows == old(rows) && patches == E.Plans(env, tools, jobs[..i])
        invariant namesUsed == E.NamesUsed(tools, jobs[..i])
        invariant repo == E.Written(old(repo), patches) && writtenPaths == E.Paths(patches)
      {
        assert jobs[..i + 1][..i] == jobs[..i];
        if jobs[i].user.Some? {
          ghost var before := patches;
          WriteManifest(jobs[..i], jobs[i]);
          assert patches[..|patches| - 1] == before;
        }
      }
      assert jobs[..|jobs|] == jobs;
    }

    method WriteManifest(ghost earlier: seq<E.Job>, j: E.Job)
      requires j.user.Some? && namesUsed == E.NamesUsed(tools, earlier)
      modifies this
      ensures rows == old(rows)
      ensures var p := E.PlanFor(env, tools, j, E.ExportName(tools, earlier, j));
        && patches == old(patches) + [p]
        && repo == old(repo)[p.path := p.body]
        && writtenPaths == old(writtenPaths) + {p.path}
      ensures namesUsed == old(namesUsed) + {(j.cluster, E.Safe(tools, j))}
    {
      hide E.Safe, E.Tag, E.ManifestPath, E.ManifestBody, E.CandidateName;
      var safeName := E.Safe(tools, j);
      var nameKey := (j.cluster, safeName);
      var dedupedName := safeName;
      if nameKey in namesUsed {
        dedupedName := safeName + "__" + E.Tag(j);
      }
      namesUsed := namesUsed + {nameKey};
      var filePath := E.ManifestPath(tools, j.cluster, dedupedName);
      writtenPaths := writtenPaths + {filePath};
      var body := E.ManifestBody(tools, j, dedupedName);
      repo := repo[filePath := body];
      var backfill := if j.name == None then Some(E.CandidateName(tools, j)) else None;
      patches := patches + [E.Plan(j, dedupedName, filePath, body, E.Ref(env, filePath, body), backfill)];
    }

    /** The prune pass over every file of the checkout; a deletion may fail. */
    method Prune(deletable: string -> bool)
      requires writtenPaths == E.Paths(patches)
      modifies this`repo
      ensures repo == map path | path in old(repo)
                       && !E.Pruned(env, tools, rows, patches, deletable, path, old(repo)[path]) :: old(repo)[path]
    {
      hide E.Stale, E.InTree;
      var left := repo.Keys;
      while left != {}
        invariant left <= repo.Keys
        invariant forall path :: path in repo ==> path in old(repo) && repo[path] == old(repo)[path]
        invariant forall path :: path in old(repo) ==>
          (path in repo <==> path in left || !E.Pruned(env, tools, rows, patches, deletable, path, old(repo)[path]))
        decreases |left|
      {
        var file :| file in left;
        left := left - {file};
        if E.InTree(tools, file) && file !in writtenPaths {
          var safeToDelete := E.Stale(env, rows, repo[file]);
          if safeToDelete && deletable(file) {
            repo := map path | path in repo && path != file :: repo[path];
          }
        }
      }
    }

    /** The row updates, each on its own. */
    method PatchRows()
      modifies this`rows
      ensures rows == E.PatchAll(old(rows), patches)
    {
      hide E.Patch;
      for i := 0 to |patches|
        invariant rows == E.PatchAll(old(rows), patches[..i])
      {
        assert patches[..i + 1][..i] == patches[..i];
        UpdateRow(patches[i]);
      }
      assert patches[..|patches|] == patches;
    }

    /** One update; if its row is gone or another holds the key, the error is swallowed. */
    method UpdateRow(p: E.Plan)
      modifies this`rows
      ensures rows == E.Patch(old(rows), p)
    {
      var id := p.job.id;
      if id !in rows {
        return;
      }
      var row := rows[id];
      var taken := set other | other in rows && other != id && E.Holds(rows, other, row.cluster, p.name);
      if taken != {} {
        ghost var other :| other in taken;
        assert E.Holds(rows, other, row.cluster, p.name) && !E.CanPatch(rows, p);
        return;
      }
      assert forall other :: other in rows && other != id && E.Holds(rows, other, row.cluster, p.name) ==>
        other in taken;
      var name := if p.backfill.GetOr("") != "" then p.backfill else row.name;
      rows := rows[id := row.(sourceName := Some(p.name), sourceRef := Some(p.ref), name := name)];
    }

    /** `runExportRunning`: rows are patched only once the commit and push have gone through. */
    method ExportRunning(jobs: seq<E.Job>, deletable: string -> bool, pushed: bool)
      requires namesUsed == {} && writtenPaths == {} && patches == []
      modifies this
      ensures patches == E.Plans(env, tools, jobs)
      ensures repo == E.Exported(env, tools, old(rows), patches, deletable, old(repo))
      ensures rows == if pushed then E.PatchAll(old(rows), patches) else old(rows)
    {
      WriteManifests(jobs);
      Prune(deletable);
      if pushed {
        PatchRows();
      }
    }
  }
}
