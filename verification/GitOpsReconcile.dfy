/**
 * What a reconcile pass guarantees: convergence to the repository, independence of file order,
 * a second pass that does nothing, complete accounting, and no key running twice.
 */
module GitOpsReconcile {
  import opened Wrappers
  import opened Counting
  import opened GitOpsModel

  predicate Resolvable(env: Env, m: Manifest) {
    m.cluster in env.clusters && m.user in env.users
  }

  function KeyOf(env: Env, m: Manifest): Key
    requires m.cluster in env.clusters
  {
    Key(env.clusters[m.cluster], m.name)
  }

  /** Some resolvable manifest asks for the key. */
  predicate Sought(env: Env, ms: seq<Manifest>, k: Key) {
    exists i | 0 <= i < |ms| :: Resolvable(env, ms[i]) && KeyOf(env, ms[i]) == k
  }

  predicate SameAt(a: map<Key, Row>, b: map<Key, Row>, k: Key) {
    (k in a <==> k in b) && (k in a ==> a[k] == b[k])
  }

  ghost predicate AllSucceed(env: Env) {
    (forall n: nat :: env.submit(n) == Started) && (forall n: nat :: env.cancel(n) == Acked)
  }

  /* ---------- one turn of the loop ---------- */

  /** Whatever the cluster answers, a turn touches only its own key, and marks it seen when it resolves. */
  lemma HandleFrame(env: Env, conflicts: set<Key>, p: Pass, m: Manifest)
    ensures var r := Handle(env, conflicts, p, m);
      && r.seen == (if Resolvable(env, m) then p.seen + {KeyOf(env, m)} else p.seen)
      && (forall k :: (!Resolvable(env, m) || k != KeyOf(env, m) || k in conflicts) ==> SameAt(p.w.owned, r.w.owned, k))
  {
    if Resolvable(env, m) && KeyOf(env, m) in p.w.owned {
      ResubmitFrame(env, p.(seen := p.seen + {KeyOf(env, m)}), KeyOf(env, m), m);
    }
    hide Resubmit;
  }

  lemma ResubmitFrame(env: Env, p: Pass, k: Key, m: Manifest)
    requires k in p.w.owned
    ensures var r := Resubmit(env, p, k, m);
      r.seen == p.seen && forall j :: j != k ==> SameAt(p.w.owned, r.w.owned, j)
  {
    hide LaunchOf, SourceRef, Active, NextNumber;
  }

  /** When the cluster cooperates, the key's row carries this manifest's reference afterwards. */
  lemma HandleSettles(env: Env, conflicts: set<Key>, p: Pass, m: Manifest)
    requires AllSucceed(env) && Resolvable(env, m) && KeyOf(env, m) !in conflicts
    ensures var r := Handle(env, conflicts, p, m);
      KeyOf(env, m) in r.w.owned && r.w.owned[KeyOf(env, m)].sourceRef == Some(SourceRef(m))
  {
  }

  lemma TwoClaims(env: Env, ms: seq<Manifest>, i: nat, j: nat, k: Key)
    requires i < j < |ms| && ClaimsKey(env, ms[i], k) && ClaimsKey(env, ms[j], k)
    ensures Conflicted(env, ms, k)
  {
    var p := m => ClaimsKey(env, m, k);
    var a, b, c := ms[..i], ms[i + 1..j], ms[j + 1..];
    assert ms == a + [ms[i]] + b + [ms[j]] + c;
    CountConcat(a + [ms[i]] + b + [ms[j]], c, p);
    CountConcat(a + [ms[i]] + b, [ms[j]], p);
    CountConcat(a + [ms[i]], b, p);
    CountConcat(a, [ms[i]], p);
    assert Count([ms[i]], p) == 1 && Count([ms[j]], p) == 1;
  }

  predicate ResolvesTo(env: Env, m: Manifest, k: Key) {
    m.cluster in env.clusters && env.clusters[m.cluster] == k.cluster && m.name == k.name
  }

  /** A key is conflicted exactly when two manifests resolve to it, whoever their users are. */
  lemma ConflictedExactly(env: Env, ms: seq<Manifest>, k: Key)
    ensures Conflicted(env, ms, k) <==>
      exists i, j | 0 <= i < j < |ms| :: ResolvesTo(env, ms[i], k) && ResolvesTo(env, ms[j], k)
  {
    if Conflicted(env, ms, k) {
      var i, j := TwoCounted(ms, m => ClaimsKey(env, m, k));
      assert ResolvesTo(env, ms[i], k) && ResolvesTo(env, ms[j], k);
    }
    if i, j :| 0 <= i < j < |ms| && ResolvesTo(env, ms[i], k) && ResolvesTo(env, ms[j], k) {
      TwoClaims(env, ms, i, j, k);
    }
  }

  lemma {:induction false} OneCounted<T>(s: seq<T>, p: T -> bool) returns (i: nat)
    requires Count(s, p) > 0
    ensures i < |s| && p(s[i])
  {
    var n := |s| - 1;
    if p(s[n]) {
      i := n;
    } else {
      i := OneCounted(s[..n], p);
    }
  }

  lemma {:induction false} TwoCounted<T>(s: seq<T>, p: T -> bool) returns (i: nat, j: nat)
    requires Count(s, p) > 1
    ensures i < j < |s| && p(s[i]) && p(s[j])
  {
    var n := |s| - 1;
    if p(s[n]) {
      i := OneCounted(s[..n], p);
      j := n;
    } else {
      i, j := TwoCounted(s[..n], p);
    }
  }

  /* ---------- the manifest loop ---------- */

  /** Whatever the cluster answers: which keys the loop has seen, and which rows it has not touched. */
  lemma {:induction false} LoopFrame(env: Env, conflicts: set<Key>, p: Pass, ms: seq<Manifest>)
    requires p.seen == {}
    ensures var r := HandleAll(env, conflicts, p, ms);
      && (forall k :: k in r.seen <==> Sought(env, ms, k))
      && (forall k :: k in conflicts || !Sought(env, ms, k) ==> SameAt(p.w.owned, r.w.owned, k))
  {
    if ms != [] {
      hide Handle, Sought, Resolvable, KeyOf;
      var front, m := ms[..|ms| - 1], ms[|ms| - 1];
      LoopFrame(env, conflicts, p, front);
      var before := HandleAll(env, conflicts, p, front);
      HandleFrame(env, conflicts, before, m);
      forall k ensures Sought(env, ms, k) <==> Sought(env, front, k) || (Resolvable(env, m) && KeyOf(env, m) == k) {
        SoughtSnoc(env, ms, k);
      }
      var r := Handle(env, conflicts, before, m);
      assert r == HandleAll(env, conflicts, p, ms);
      forall k | k in conflicts || !Sought(env, ms, k) ensures SameAt(p.w.owned, r.w.owned, k) {
        assert SameAt(p.w.owned, before.w.owned, k) && SameAt(before.w.owned, r.w.owned, k);
      }
      hide HandleAll, SameAt;
    }
  }

  lemma SoughtSnoc(env: Env, ms: seq<Manifest>, k: Key)
    requires ms != []
    ensures Sought(env, ms, k) <==>
      Sought(env, ms[..|ms| - 1], k) || (Resolvable(env, ms[|ms| - 1]) && KeyOf(env, ms[|ms| - 1]) == k)
  {
    var front := ms[..|ms| - 1];
    if Sought(env, front, k) {
      var i :| 0 <= i < |front| && Resolvable(env, front[i]) && KeyOf(env, front[i]) == k;
      assert ms[i] == front[i];
    }
    if Sought(env, ms, k) {
      var i :| 0 <= i < |ms| && Resolvable(env, ms[i]) && KeyOf(env, ms[i]) == k;
      if i < |front| {
        assert front[i] == ms[i];
      }
    }
  }

  /** With a cooperative cluster every unconflicted manifest has its row, carrying its reference. */
  lemma {:induction false} LoopSettles(env: Env, conflicts: set<Key>, p: Pass, all: seq<Manifest>, n: nat)
    requires AllSucceed(env) && AreConflicts(env, all, conflicts) && n <= |all|
    ensures var r := HandleAll(env, conflicts, p, all[..n]);
      forall i :: 0 <= i < n && Resolvable(env, all[i]) && KeyOf(env, all[i]) !in conflicts ==>
        KeyOf(env, all[i]) in r.w.owned && r.w.owned[KeyOf(env, all[i])].sourceRef == Some(SourceRef(all[i]))
  {
    if n > 0 {
      var m := all[n - 1];
      assert all[..n][..n - 1] == all[..n - 1];
      LoopSettles(env, conflicts, p, all, n - 1);
      var before := HandleAll(env, conflicts, p, all[..n - 1]);
      var r := Handle(env, conflicts, before, m);
      HandleFrame(env, conflicts, before, m);
      forall i | 0 <= i < n && Resolvable(env, all[i]) && KeyOf(env, all[i]) !in conflicts
        ensures KeyOf(env, all[i]) in r.w.owned
             && r.w.owned[KeyOf(env, all[i])].sourceRef == Some(SourceRef(all[i]))
      {
        if i == n - 1 {
          HandleSettles(env, conflicts, before, m);
        } else if Resolvable(env, m) && KeyOf(env, m) == KeyOf(env, all[i]) {
          TwoClaims(env, all, i, n - 1, KeyOf(env, m));
        }
      }
    }
  }

  /* ---------- the removal pass ---------- */

  /** Whatever the cluster answers, exactly the listed rows whose key was not seen are dropped. */
  lemma {:induction false} RemovalFrame(env: Env, p: Pass, listing: seq<Key>)
    ensures var r := RemoveAll(env, p, listing);
      && r.seen == p.seen
      && (forall k :: k in p.seen || k !in listing ==> SameAt(p.w.owned, r.w.owned, k))
      && (forall k :: k in listing && k !in p.seen ==> k !in r.w.owned)
  {
    if listing != [] {
      var front := listing[..|listing| - 1];
      RemovalFrame(env, p, front);
      assert forall k :: k in listing <==> k in front || k == listing[|listing| - 1];
    }
  }

  /* ---------- the whole pass ---------- */

  /** The owned rows follow the repository: one per sought, unconflicted key, with its manifest's reference. */
  ghost predicate Follows(env: Env, ms: seq<Manifest>, conflicts: set<Key>, owned: map<Key, Row>) {
    && (forall i :: 0 <= i < |ms| && Resolvable(env, ms[i]) && KeyOf(env, ms[i]) !in conflicts ==>
          KeyOf(env, ms[i]) in owned && owned[KeyOf(env, ms[i])].sourceRef == Some(SourceRef(ms[i])))
    && (forall k :: k in owned ==> Sought(env, ms, k))
  }

  /**
   * A pass in which every call succeeds leaves exactly: for each sought key without a conflict, a
   * row with its manifest's reference; for each sought conflicted key, its old row untouched (or
   * still none); nothing else.
   */
  lemma Converges(env: Env, w: World, files: seq<File>, conflicts: set<Key>, listing: seq<Key>)
    requires AllSucceed(env) && AreConflicts(env, Parsed(env, files), conflicts)
    requires IsListing(listing, Looped(env, w, files, conflicts).w.owned)
    ensures var ms := Parsed(env, files);
      var owned := Reconciled(env, w, files, conflicts, listing).w.owned;
      && Follows(env, ms, conflicts, owned)
      && (forall k :: k in owned <==> Sought(env, ms, k) && (k in conflicts ==> k in w.owned))
      && (forall k :: k in owned && k in conflicts ==> owned[k] == w.owned[k])
  {
    var ms := Parsed(env, files);
    var p := Pass(w, ScanSummary(env, files), {}, []);
    LoopFrame(env, conflicts, p, ms);
    assert ms[..|ms|] == ms;
    LoopSettles(env, conflicts, p, ms, |ms|);
    var looped := HandleAll(env, conflicts, p, ms);
    RemovalFrame(env, looped, listing);
    var owned := RemoveAll(env, looped, listing).w.owned;
    forall i | 0 <= i < |ms| && Resolvable(env, ms[i]) && KeyOf(env, ms[i]) !in conflicts
      ensures KeyOf(env, ms[i]) in owned && owned[KeyOf(env, ms[i])].sourceRef == Some(SourceRef(ms[i]))
    {
      assert Sought(env, ms, KeyOf(env, ms[i]));
      assert SameAt(looped.w.owned, owned, KeyOf(env, ms[i]));
    }
    forall k ensures k in owned <==> Sought(env, ms, k) && (k in conflicts ==> k in w.owned) {
      assert k in looped.seen ==> SameAt(looped.w.owned, owned, k);
      assert k !in listing ==> SameAt(looped.w.owned, owned, k);
    }
    forall k | k in owned && k in conflicts ensures owned[k] == w.owned[k] {
      assert SameAt(w.owned, looped.w.owned, k) && SameAt(looped.w.owned, owned, k);
    }
  }

  /* ---------- file order ---------- */

  predicate Yields(env: Env, f: File, m: Manifest) {
    IsYaml(f.path) && ParseFile(env, f) == Ok(m)
  }

  lemma {:induction false} ParsedMembers(env: Env, files: seq<File>, m: Manifest)
    ensures multiset(Parsed(env, files))[m] == Count(files, f => Yields(env, f, m))
  {
    if files != [] {
      ParsedMembers(env, files[..|files| - 1], m);
    }
  }

  /** The valid manifests of a reordered scan are the same, reordered. */
  lemma ParsedPermuted(env: Env, a: seq<File>, b: seq<File>)
    requires multiset(a) == multiset(b)
    ensures multiset(Parsed(env, a)) == multiset(Parsed(env, b))
  {
    forall m ensures multiset(Parsed(env, a))[m] == multiset(Parsed(env, b))[m] {
      ParsedMembers(env, a, m);
      ParsedMembers(env, b, m);
      CountPermuted(a, b, f => Yields(env, f, m));
    }
  }

  lemma SoughtPermuted(env: Env, a: seq<Manifest>, b: seq<Manifest>, k: Key)
    requires multiset(a) == multiset(b) && Sought(env, a, k)
    ensures Sought(env, b, k)
  {
    var i :| 0 <= i < |a| && Resolvable(env, a[i]) && KeyOf(env, a[i]) == k;
    assert a[i] in multiset(b);
    var j :| 0 <= j < |b| && b[j] == a[i];
    assert Resolvable(env, b[j]) && KeyOf(env, b[j]) == k;
  }

  /** Which keys are owned, and with which references, does not depend on the order files are walked. */
  lemma OrderIndependent(env: Env, w: World, a: seq<File>, b: seq<File>, conflicts: set<Key>, la: seq<Key>,
                         lb: seq<Key>)
    requires AllSucceed(env) && multiset(a) == multiset(b)
    requires AreConflicts(env, Parsed(env, a), conflicts)
    requires IsListing(la, Looped(env, w, a, conflicts).w.owned) && IsListing(lb, Looped(env, w, b, conflicts).w.owned)
    ensures AreConflicts(env, Parsed(env, b), conflicts)
    ensures var x, y := Reconciled(env, w, a, conflicts, la).w.owned, Reconciled(env, w, b, conflicts, lb).w.owned;
      x.Keys == y.Keys && forall k :: k in x ==> x[k].sourceRef == y[k].sourceRef
  {
    var ma, mb := Parsed(env, a), Parsed(env, b);
    ParsedPermuted(env, a, b);
    hide Parsed, Reconciled, Looped, IsListing;
    forall k ensures Conflicted(env, ma, k) == Conflicted(env, mb, k) && Sought(env, ma, k) == Sought(env, mb, k) {
      SameClaims(env, ma, mb, k);
    }
    Converges(env, w, a, conflicts, la);
    Converges(env, w, b, conflicts, lb);
    var x, y := Reconciled(env, w, a, conflicts, la).w.owned, Reconciled(env, w, b, conflicts, lb).w.owned;
    forall k | k in x && k !in conflicts ensures x[k].sourceRef == y[k].sourceRef {
      SameReference(env, ma, mb, conflicts, x, y, k);
    }
  }

  lemma SameClaims(env: Env, a: seq<Manifest>, b: seq<Manifest>, k: Key)
    requires multiset(a) == multiset(b)
    ensures Conflicted(env, a, k) == Conflicted(env, b, k) && Sought(env, a, k) == Sought(env, b, k)
  {
    CountPermuted(a, b, m => ClaimsKey(env, m, k));
    if Sought(env, a, k) {
      SoughtPermuted(env, a, b, k);
    }
    if Sought(env, b, k) {
      SoughtPermuted(env, b, a, k);
    }
  }

  lemma SameReference(env: Env, a: seq<Manifest>, b: seq<Manifest>, conflicts: set<Key>,
                      x: map<Key, Row>, y: map<Key, Row>, k: Key)
    requires multiset(a) == multiset(b) && Follows(env, a, conflicts, x) && Follows(env, b, conflicts, y)
    requires k in x && k !in conflicts
    ensures k in y && x[k].sourceRef == y[k].sourceRef
  {
    var i :| 0 <= i < |a| && Resolvable(env, a[i]) && KeyOf(env, a[i]) == k;
    assert a[i] in multiset(b);
    var j :| 0 <= j < |b| && b[j] == a[i];
  }

  /* ---------- the second pass ---------- */

  lemma {:induction false} LoopIdle(env: Env, conflicts: set<Key>, p: Pass, ms: seq<Manifest>, n: nat)
    requires n <= |ms| && Follows(env, ms, conflicts, p.w.owned)
    ensures var r := HandleAll(env, conflicts, p, ms[..n]);
      && r.w == p.w && r.launches == p.launches
      && r.sum == p.sum.(same := r.sum.same, skipped := r.sum.skipped)
  {
    if n > 0 {
      assert ms[..n][..n - 1] == ms[..n - 1];
      LoopIdle(env, conflicts, p, ms, n - 1);
    }
  }

  lemma {:induction false} RemovalIdle(env: Env, p: Pass, listing: seq<Key>)
    requires forall k :: k in listing ==> k in p.seen
    ensures RemoveAll(env, p, listing) == p
  {
    if listing != [] {
      RemovalIdle(env, p, listing[..|listing| - 1]);
    }
  }

  /**
   * Once the rows follow the repository a pass submits nothing, cancels nothing and deletes
   * nothing, whatever the cluster would have answered and whatever has become of the jobs.
   */
  lemma SecondPassIdle(env: Env, w: World, files: seq<File>, conflicts: set<Key>, listing: seq<Key>)
    requires AreConflicts(env, Parsed(env, files), conflicts)
    requires Follows(env, Parsed(env, files), conflicts, w.owned)
    requires IsListing(listing, Looped(env, w, files, conflicts).w.owned)
    ensures var r := Reconciled(env, w, files, conflicts, listing);
      && r.w == w && r.launches == []
      && r.sum.submitted == r.sum.resubmitted == r.sum.cancelled == 0 && r.sum.errors == []
  {
    var ms := Parsed(env, files);
    var p := Pass(w, ScanSummary(env, files), {}, []);
    assert ms[..|ms|] == ms;
    LoopIdle(env, conflicts, p, ms, |ms|);
    LoopFrame(env, conflicts, p, ms);
    RemovalIdle(env, HandleAll(env, conflicts, p, ms), listing);
    ScanCounts(env, files);
  }

  /* ---------- accounting ---------- */

  function Handled(s: Summary): nat {
    s.submitted + s.resubmitted + s.same + |s.skipped| + |s.errors|
  }

  lemma {:induction false} ScanCounts(env: Env, files: seq<File>)
    ensures var s := ScanSummary(env, files);
      && s.scanned == |Parsed(env, files)| + |s.skipped|
      && s == NO_SUMMARY.(scanned := s.scanned, skipped := s.skipped)
  {
    if files != [] {
      ScanCounts(env, files[..|files| - 1]);
    }
  }

  lemma HandleCountsOne(env: Env, conflicts: set<Key>, p: Pass, m: Manifest)
    ensures var r := Handle(env, conflicts, p, m);
      Handled(r.sum) == Handled(p.sum) + 1 && r.sum.scanned == p.sum.scanned
  {
  }

  lemma {:induction false} LoopCounts(env: Env, conflicts: set<Key>, p: Pass, ms: seq<Manifest>)
    ensures var r := HandleAll(env, conflicts, p, ms);
      Handled(r.sum) == Handled(p.sum) + |ms| && r.sum.scanned == p.sum.scanned
  {
    if ms != [] {
      LoopCounts(env, conflicts, p, ms[..|ms| - 1]);
      HandleCountsOne(env, conflicts, HandleAll(env, conflicts, p, ms[..|ms| - 1]), ms[|ms| - 1]);
    }
  }

  lemma {:induction false} RemovalCounts(env: Env, p: Pass, listing: seq<Key>)
    ensures var r := RemoveAll(env, p, listing);
      Handled(r.sum) == Handled(p.sum) && r.sum.scanned == p.sum.scanned
  {
    if listing != [] {
      RemovalCounts(env, p, listing[..|listing| - 1]);
    }
  }

  /** Whatever fails, every scanned manifest is accounted for under exactly one heading. */
  lemma Accounting(env: Env, w: World, files: seq<File>, conflicts: set<Key>, listing: seq<Key>)
    ensures var s := Reconciled(env, w, files, conflicts, listing).sum;
      s.scanned == s.submitted + s.resubmitted + s.same + |s.skipped| + |s.errors|
  {
    var p := Pass(w, ScanSummary(env, files), {}, []);
    ScanCounts(env, files);
    LoopCounts(env, conflicts, p, Parsed(env, files));
    RemovalCounts(env, Looped(env, w, files, conflicts), listing);
  }

  /* ---------- no key runs twice ---------- */

  /** No row names a job whose number its cluster has not handed out yet. */
  ghost predicate NumbersDrawn(owned: map<Key, Row>, slurms: map<ClusterId, nat>) {
    forall k :: k in owned && owned[k].slurm.Some? ==> owned[k].slurm.value < NextNumber(slurms, k.cluster)
  }

  /** The rows know what is live, and Slurm has handed out no number it will hand out again. */
  ghost predicate Truthful(w: World) {
    && (forall k :: k in w.owned && IsLive(w.live, k, w.owned[k].slurm) ==> Active(w.owned[k].status))
    && NumbersDrawn(w.owned, w.slurms)
  }

  /** A launch replaces a job that is still live. */
  predicate Doubles(l: Launch) {
    IsLive(l.live, l.key, l.previous)
  }

  lemma SubmitTruthful(env: Env, w: World, k: Key, ref: string)
    requires Truthful(w)
    ensures Truthful(Submit(env, w, k, ref))
  {
  }

  /** A cancel keeps the rows truthful once its row is gone, and on SSH a reported success is real. */
  lemma CancelTruthful(env: Env, w: World, k: Key)
    requires Truthful(w) && k in w.owned
    ensures var (w', ok) := Cancel(env, w, k);
      && (ok ==> Truthful(Drop(w', k))) && (!ok ==> Truthful(w'))
      && (ok ==>
            (IsLive(w'.live, k, w.owned[k].slurm) <==>
              IsLive(w.live, k, w.owned[k].slurm) && k.cluster !in env.ssh))
  {
  }

  lemma ReplaceLaunches(env: Env, p: Pass, k: Key, previous: Option<nat>, m: Manifest)
    requires Truthful(Drop(p.w, k))
    ensures var r := Replace(env, p, k, previous, m);
      Truthful(r.w) && r.launches == p.launches + [LaunchOf(env, Drop(p.w, k), k, previous, m)]
  {
    SubmitTruthful(env, Drop(p.w, k), k, SourceRef(m));
  }

  lemma ResubmitLaunches(env: Env, p: Pass, k: Key, m: Manifest)
    requires Truthful(p.w) && k in p.w.owned
    ensures var r := Resubmit(env, p, k, m);
      && Truthful(r.w)
      && (r.launches == p.launches
          || (|r.launches| == |p.launches| + 1 && p.launches <= r.launches
              && var l := r.launches[|p.launches|];
                 && l.key == k && l.previous == p.w.owned[k].slurm
                 && (Doubles(l) <==> IsLive(p.w.live, k, l.previous) && k.cluster !in env.ssh)))
  {
    CancelTruthful(env, p.w, k);
    var r := p.w.owned[k];
    var (w, ok) := Cancel(env, p.w, k);
    if !Active(r.status) {
      assert Truthful(Drop(p.w, k));
      ReplaceLaunches(env, p, k, r.slurm, m);
    } else if ok {
      ReplaceLaunches(env, p.(w := w, sum := p.sum.(cancelled := p.sum.cancelled + 1)), k, r.slurm, m);
    }
    hide NumbersDrawn, Submit, Replace, Cancel, IsLive;
  }

  /**
   * One turn from truthful rows keeps them truthful. It launches at most one job, and that doubles
   * a live one exactly when the cluster is not reached over SSH and the row's job was live.
   */
  lemma HandleLaunches(env: Env, conflicts: set<Key>, p: Pass, m: Manifest)
    requires Truthful(p.w)
    ensures var r := Handle(env, conflicts, p, m);
      && Truthful(r.w)
      && (r.launches == p.launches || (|r.launches| == |p.launches| + 1 && p.launches <= r.launches))
      && (|r.launches| > |p.launches| ==>
            var l := r.launches[|p.launches|];
            && Resolvable(env, m) && l.key == KeyOf(env, m)
            && l.previous == (if l.key in p.w.owned then p.w.owned[l.key].slurm else None)
            && (Doubles(l) <==> IsLive(p.w.live, l.key, l.previous) && l.key.cluster !in env.ssh))
  {
    if Resolvable(env, m) {
      var k := KeyOf(env, m);
      SubmitTruthful(env, p.w, k, SourceRef(m));
      if k in p.w.owned {
        ResubmitLaunches(env, p.(seen := p.seen + {k}), k, m);
      }
      hide Truthful, Submit, Resubmit, IsLive;
    }
  }

  lemma {:induction false} LoopLaunches(env: Env, conflicts: set<Key>, p: Pass, ms: seq<Manifest>)
    requires Truthful(p.w)
    requires forall l :: l in p.launches && Doubles(l) ==> l.key.cluster !in env.ssh
    ensures var r := HandleAll(env, conflicts, p, ms);
      Truthful(r.w) && forall l :: l in r.launches && Doubles(l) ==> l.key.cluster !in env.ssh
  {
    if ms != [] {
      var before := HandleAll(env, conflicts, p, ms[..|ms| - 1]);
      LoopLaunches(env, conflicts, p, ms[..|ms| - 1]);
      HandleLaunches(env, conflicts, before, ms[|ms| - 1]);
    }
  }

  /**
   * Under every pattern of refused submissions, failed and unacknowledged cancels, the manifest
   * loop never launches a key on an SSH cluster while the job its row named is live.
   */
  lemma NeverDoubles(env: Env, w: World, files: seq<File>, conflicts: set<Key>)
    requires Truthful(w)
    ensures forall l :: l in Looped(env, w, files, conflicts).launches && l.key.cluster in env.ssh ==> !Doubles(l)
  {
    LoopLaunches(env, conflicts, Pass(w, ScanSummary(env, files), {}, []), Parsed(env, files));
  }

  /* ---------- where the code stops short ---------- */

  /**
   * The removal pass ignores what the cancel reports: the row always goes, and its job lives on
   * exactly when nothing was sent (no SSH) or `scancel` was denied.
   */
  lemma RemovalMayOrphan(env: Env, p: Pass, k: Key)
    requires k in p.w.owned && k !in p.seen && Truthful(p.w) && IsLive(p.w.live, k, p.w.owned[k].slurm)
    ensures var r := Remove(env, p, k);
      && k !in r.w.owned
      && (IsLive(r.w.live, k, p.w.owned[k].slurm) <==> k.cluster !in env.ssh || env.cancel(p.w.cancels) == Denied)
  {
  }

  /**
   * A row whose key no valid, resolvable manifest asks for is gone after the pass, whatever the
   * cluster answers: a manifest that stops parsing, or whose user is unknown, takes its job with it.
   */
  lemma UnsoughtRowDropped(env: Env, w: World, files: seq<File>, conflicts: set<Key>, listing: seq<Key>, k: Key)
    requires IsListing(listing, Looped(env, w, files, conflicts).w.owned)
    requires !Sought(env, Parsed(env, files), k)
    ensures k !in Reconciled(env, w, files, conflicts, listing).w.owned
  {
    LoopFrame(env, conflicts, Pass(w, ScanSummary(env, files), {}, []), Parsed(env, files));
    RemovalFrame(env, Looped(env, w, files, conflicts), listing);
    assert k !in listing ==>
      SameAt(Looped(env, w, files, conflicts).w.owned, Reconciled(env, w, files, conflicts, listing).w.owned, k);
  }

  /** The turn made a submission. */
  predicate Launches(before: Pass, after: Pass) {
    |after.launches| > |before.launches|
  }

  ghost predicate SameLookups(env: Env, env': Env) {
    env'.load == env.load && env'.hash == env.hash && env'.clusters == env.clusters && env'.users == env.users
  }

  /** What a turn leaves at its key when its submission failed. */
  lemma FailedSubmitLeaves(env: Env, conflicts: set<Key>, p: Pass, m: Manifest)
    requires Resolvable(env, m) && KeyOf(env, m) !in conflicts
    requires Launches(p, Handle(env, conflicts, p, m)) && env.submit(p.w.submits) != Started
    ensures var owned := Handle(env, conflicts, p, m).w.owned;
      if env.submit(p.w.submits) == Refused then KeyOf(env, m) !in owned
      else KeyOf(env, m) in owned && owned[KeyOf(env, m)].status == FAILED
           && owned[KeyOf(env, m)].sourceRef == Some(SourceRef(m))
  {
  }

  /**
   * After a submission that failed, new or in place of an old row, the next turn of the unchanged
   * manifest submits again exactly when the submission had been refused; one whose `sbatch` failed
   * leaves a FAILED row that counts as up to date.
   */
  lemma RetriedExactly(env: Env, env': Env, conflicts: set<Key>, p: Pass, q: Pass, m: Manifest)
    requires Resolvable(env, m) && KeyOf(env, m) !in conflicts && SameLookups(env, env')
    requires Launches(p, Handle(env, conflicts, p, m)) && env.submit(p.w.submits) != Started
    requires q.w == Handle(env, conflicts, p, m).w
    ensures var r := Handle(env', conflicts, q, m);
      && (Launches(q, r) <==> env.submit(p.w.submits) == Refused)
      && (!Launches(q, r) ==> r.w == q.w && r.launches == q.launches && r.sum.same == q.sum.same + 1)
  {
    FailedSubmitLeaves(env, conflicts, p, m);
  }

  /** Launches for this key are the same in both. */
  ghost predicate SameLaunchesFor(a: Pass, b: Pass, k: Key) {
    forall l: Launch :: l.key == k ==> (l in a.launches <==> l in b.launches)
  }

  /** A turn that is not about the key leaves its row and its launches as they were. */
  lemma OtherTurn(env: Env, conflicts: set<Key>, p: Pass, m: Manifest, k: Key)
    requires !(Resolvable(env, m) && KeyOf(env, m) == k)
    ensures var r := Handle(env, conflicts, p, m);
      SameAt(p.w.owned, r.w.owned, k) && SameLaunchesFor(p, r, k)
  {
    HandleFrame(env, conflicts, p, m);
    hide Submit, Cancel, Drop;
  }

  /** The only manifest that claims an unconflicted key decides it: other turns leave it alone. */
  lemma {:induction false} TurnsBefore(env: Env, conflicts: set<Key>, p: Pass, ms: seq<Manifest>, i: nat, n: nat)
    requires AreConflicts(env, ms, conflicts) && n <= i < |ms|
    requires Resolvable(env, ms[i]) && KeyOf(env, ms[i]) !in conflicts
    ensures var r, k := HandleAll(env, conflicts, p, ms[..n]), KeyOf(env, ms[i]);
      SameAt(p.w.owned, r.w.owned, k) && SameLaunchesFor(p, r, k)
  {
    if n > 0 {
      hide Handle, KeyOf;
      assert ms[..n][..n - 1] == ms[..n - 1];
      TurnsBefore(env, conflicts, p, ms, i, n - 1);
      OnlyClaim(env, conflicts, ms, n - 1, i);
      OtherTurn(env, conflicts, HandleAll(env, conflicts, p, ms[..n - 1]), ms[n - 1], KeyOf(env, ms[i]));
    }
  }

  lemma {:induction false} TurnsAfter(env: Env, conflicts: set<Key>, p: Pass, ms: seq<Manifest>, i: nat, n: nat)
    requires AreConflicts(env, ms, conflicts) && i < n <= |ms|
    requires Resolvable(env, ms[i]) && KeyOf(env, ms[i]) !in conflicts
    ensures var turn := Handle(env, conflicts, HandleAll(env, conflicts, p, ms[..i]), ms[i]);
      var r, k := HandleAll(env, conflicts, p, ms[..n]), KeyOf(env, ms[i]);
      SameAt(turn.w.owned, r.w.owned, k) && SameLaunchesFor(turn, r, k)
  {
    hide Handle, KeyOf;
    assert ms[..n][..n - 1] == ms[..n - 1];
    if n > i + 1 {
      TurnsAfter(env, conflicts, p, ms, i, n - 1);
      OnlyClaim(env, conflicts, ms, n - 1, i);
      OtherTurn(env, conflicts, HandleAll(env, conflicts, p, ms[..n - 1]), ms[n - 1], KeyOf(env, ms[i]));
    }
  }

  lemma OnlyClaim(env: Env, conflicts: set<Key>, ms: seq<Manifest>, j: nat, i: nat)
    requires AreConflicts(env, ms, conflicts) && i < |ms| && j < |ms| && i != j
    requires Resolvable(env, ms[i]) && KeyOf(env, ms[i]) !in conflicts
    ensures !(Resolvable(env, ms[j]) && KeyOf(env, ms[j]) == KeyOf(env, ms[i]))
  {
    if Resolvable(env, ms[j]) && KeyOf(env, ms[j]) == KeyOf(env, ms[i]) {
      TwoClaims(env, ms, if i < j then i else j, if i < j then j else i, KeyOf(env, ms[i]));
    }
  }

  /** A whole pass, at the key of an unconflicted manifest, is that manifest's turn. */
  lemma PassAtKey(env: Env, w: World, files: seq<File>, conflicts: set<Key>, listing: seq<Key>, i: nat)
    requires AreConflicts(env, Parsed(env, files), conflicts) && i < |Parsed(env, files)|
    requires Resolvable(env, Parsed(env, files)[i]) && KeyOf(env, Parsed(env, files)[i]) !in conflicts
    ensures var ms := Parsed(env, files);
      var k := KeyOf(env, ms[i]);
      var before := HandleAll(env, conflicts, Pass(w, ScanSummary(env, files), {}, []), ms[..i]);
      var turn := Handle(env, conflicts, before, ms[i]);
      var r := Reconciled(env, w, files, conflicts, listing);
      && SameAt(w.owned, before.w.owned, k) && (forall l :: l in before.launches ==> l.key != k)
      && SameAt(turn.w.owned, r.w.owned, k) && SameLaunchesFor(turn, r, k)
  {
    var ms := Parsed(env, files);
    var p := Pass(w, ScanSummary(env, files), {}, []);
    TurnsBefore(env, conflicts, p, ms, i, i);
    TurnsAfter(env, conflicts, p, ms, i, |ms|);
    assert ms[..|ms|] == ms;
    LoopFrame(env, conflicts, p, ms);
    assert Sought(env, ms, KeyOf(env, ms[i]));
    RemovalFrame(env, HandleAll(env, conflicts, p, ms), listing);
    RemovalLaunchesNothing(env, HandleAll(env, conflicts, p, ms), listing);
  }

  lemma {:induction false} RemovalLaunchesNothing(env: Env, p: Pass, listing: seq<Key>)
    ensures RemoveAll(env, p, listing).launches == p.launches
  {
    if listing != [] {
      RemovalLaunchesNothing(env, p, listing[..|listing| - 1]);
    }
  }

  lemma {:induction false} SameParse(env: Env, env': Env, files: seq<File>)
    requires SameLookups(env, env')
    ensures Parsed(env', files) == Parsed(env, files)
  {
    if files != [] {
      SameParse(env, env', files[..|files| - 1]);
    }
  }

  lemma {:induction false} SameClaimCount(env: Env, env': Env, ms: seq<Manifest>, k: Key)
    requires SameLookups(env, env')
    ensures Claims(env', ms, k) == Claims(env, ms, k)
  {
    if ms != [] {
      SameClaimCount(env, env', ms[..|ms| - 1], k);
    }
  }

  /**
   * Over whole passes: when the submission for an unconflicted manifest failed, the next pass over
   * the same files submits for its key exactly when the submission had been refused, whatever the
   * cluster answers this time.
   */
  lemma NextPassRetriesExactly(env: Env, env': Env, w: World, files: seq<File>, conflicts: set<Key>,
                               listing: seq<Key>, listing': seq<Key>, i: nat)
    requires SameLookups(env, env') && AreConflicts(env, Parsed(env, files), conflicts) && i < |Parsed(env, files)|
    requires Resolvable(env, Parsed(env, files)[i]) && KeyOf(env, Parsed(env, files)[i]) !in conflicts
    requires var before := HandleAll(env, conflicts, Pass(w, ScanSummary(env, files), {}, []), Parsed(env, files)[..i]);
      Launches(before, Handle(env, conflicts, before, Parsed(env, files)[i])) && env.submit(before.w.submits) != Started
    ensures var k := KeyOf(env, Parsed(env, files)[i]);
      var before := HandleAll(env, conflicts, Pass(w, ScanSummary(env, files), {}, []), Parsed(env, files)[..i]);
      var next := Reconciled(env', Reconciled(env, w, files, conflicts, listing).w, files, conflicts, listing');
      (exists l :: l in next.launches && l.key == k) <==> env.submit(before.w.submits) == Refused
  {
    var m := Parsed(env, files)[i];
    var k := KeyOf(env, m);
    var before := HandleAll(env, conflicts, Pass(w, ScanSummary(env, files), {}, []), Parsed(env, files)[..i]);
    FailedSubmitLeaves(env, conflicts, before, m);
    PassAtKey(env, w, files, conflicts, listing, i);
    SameParse(env, env', files);
    forall j ensures Conflicted(env', Parsed(env, files), j) == Conflicted(env, Parsed(env, files), j) {
      SameClaimCount(env, env', Parsed(env, files), j);
    }
    var w' := Reconciled(env, w, files, conflicts, listing).w;
    PassAtKey(env', w', files, conflicts, listing', i);
    var again := HandleAll(env', conflicts, Pass(w', ScanSummary(env', files), {}, []), Parsed(env, files)[..i]);
    TurnLaunches(env', conflicts, again, m);
  }

  /**
   * A turn for an unconflicted key launches exactly when its row is missing, or carries another
   * reference and its job, if it is active, was reported cancelled.
   */
  predicate Resubmits(env: Env, w: World, k: Key, m: Manifest) {
    k !in w.owned
    || (w.owned[k].sourceRef != Some(SourceRef(m)) && (Active(w.owned[k].status) ==> Cancel(env, w, k).1))
  }

  lemma TurnLaunches(env: Env, conflicts: set<Key>, p: Pass, m: Manifest)
    requires Resolvable(env, m) && KeyOf(env, m) !in conflicts
    ensures var r := Handle(env, conflicts, p, m);
      if Resubmits(env, p.w, KeyOf(env, m), m) then exists l :: l in r.launches && l.key == KeyOf(env, m)
      else r.launches == p.launches
  {
    var r := Handle(env, conflicts, p, m);
    hide Submit, Cancel;
    if Resubmits(env, p.w, KeyOf(env, m), m) {
      assert r.launches != [] && r.launches[|r.launches| - 1].key == KeyOf(env, m);
    }
  }

  /** Over a whole pass: where a row for the key is there and its job has ended, a changed reference is all it takes. */
  lemma PassLaunchesExactly(env: Env, w: World, files: seq<File>, conflicts: set<Key>, listing: seq<Key>, i: nat)
    requires AreConflicts(env, Parsed(env, files), conflicts) && i < |Parsed(env, files)|
    requires Resolvable(env, Parsed(env, files)[i]) && KeyOf(env, Parsed(env, files)[i]) !in conflicts
    requires var k := KeyOf(env, Parsed(env, files)[i]); k in w.owned && !Active(w.owned[k].status)
    ensures var k := KeyOf(env, Parsed(env, files)[i]);
      (exists l :: l in Reconciled(env, w, files, conflicts, listing).launches && l.key == k) <==>
        w.owned[k].sourceRef != Some(SourceRef(Parsed(env, files)[i]))
  {
    var m := Parsed(env, files)[i];
    var before := HandleAll(env, conflicts, Pass(w, ScanSummary(env, files), {}, []), Parsed(env, files)[..i]);
    PassAtKey(env, w, files, conflicts, listing, i);
    hide Handle, HandleAll, Reconciled, Parsed, KeyOf, Resolvable;
    TurnLaunches(env, conflicts, before, m);
  }

  /* ---------- a live job that no owned row names ---------- */

  predicate Names(k: Key, row: Row, s: SlurmJob) {
    k.cluster == s.cluster && row.slurm == Some(s.number)
  }

  /** A job of somebody else's: live, its number drawn, and no owned row names it. */
  ghost predicate Stray(w: World, s: SlurmJob) {
    && s in w.live && s.number < NextNumber(w.slurms, s.cluster)
    && forall k :: k in w.owned ==> !Names(k, w.owned[k], s)
  }

  ghost predicate Spared(p: Pass, s: SlurmJob) {
    Stray(p.w, s) && forall l :: l in p.launches ==> s in l.live
  }

  lemma SubmitSpares(env: Env, w: World, k: Key, ref: string, s: SlurmJob)
    requires Stray(w, s)
    ensures Stray(Submit(env, w, k, ref), s)
  {
  }

  lemma CancelSparesStray(env: Env, w: World, k: Key, s: SlurmJob)
    requires Stray(w, s) && k in w.owned
    ensures Stray(Cancel(env, w, k).0, s) && Stray(Drop(Cancel(env, w, k).0, k), s) && Stray(Drop(w, k), s)
  {
    assert !Names(k, w.owned[k], s);
  }

  lemma ReplaceSpares(env: Env, p: Pass, k: Key, previous: Option<nat>, m: Manifest, s: SlurmJob)
    requires Spared(p, s) && Stray(Drop(p.w, k), s)
    ensures Spared(Replace(env, p, k, previous, m), s)
  {
    SubmitSpares(env, Drop(p.w, k), k, SourceRef(m), s);
    hide Submit, Stray, Drop;
    assert Drop(p.w, k).live == p.w.live;
  }

  lemma HandleSpares(env: Env, conflicts: set<Key>, p: Pass, m: Manifest, s: SlurmJob)
    requires Spared(p, s)
    ensures Spared(Handle(env, conflicts, p, m), s)
  {
    if Resolvable(env, m) {
      var k := KeyOf(env, m);
      var p1 := p.(seen := p.seen + {k});
      SubmitSpares(env, p.w, k, SourceRef(m), s);
      if k in p.w.owned {
        CancelSparesStray(env, p.w, k, s);
        var (w, ok) := Cancel(env, p.w, k);
        ReplaceSpares(env, p1, k, p.w.owned[k].slurm, m, s);
        ReplaceSpares(env, p1.(w := w, sum := p.sum.(cancelled := p.sum.cancelled + 1)), k, p.w.owned[k].slurm, m, s);
      }
      hide Submit, Cancel, Drop, Stray, Replace;
    }
  }

  lemma {:induction false} LoopSpares(env: Env, conflicts: set<Key>, p: Pass, ms: seq<Manifest>, s: SlurmJob)
    requires Spared(p, s)
    ensures Spared(HandleAll(env, conflicts, p, ms), s)
  {
    if ms != [] {
      hide Handle, Spared;
      LoopSpares(env, conflicts, p, ms[..|ms| - 1], s);
      HandleSpares(env, conflicts, HandleAll(env, conflicts, p, ms[..|ms| - 1]), ms[|ms| - 1], s);
    }
  }

  lemma {:induction false} RemovalSpares(env: Env, p: Pass, listing: seq<Key>, s: SlurmJob)
    requires Spared(p, s)
    ensures Spared(RemoveAll(env, p, listing), s)
  {
    if listing != [] {
      var before, k := RemoveAll(env, p, listing[..|listing| - 1]), listing[|listing| - 1];
      RemovalSpares(env, p, listing[..|listing| - 1], s);
      if k in before.w.owned {
        CancelSparesStray(env, before.w, k, s);
      }
      hide Cancel, Drop, Stray;
    }
  }

  /** A whole pass leaves such a job running, and everything it launches, it launches beside it. */
  lemma PassSpares(env: Env, w: World, files: seq<File>, conflicts: set<Key>, listing: seq<Key>, s: SlurmJob)
    requires Stray(w, s)
    ensures Spared(Reconciled(env, w, files, conflicts, listing), s)
  {
    LoopSpares(env, conflicts, Pass(w, ScanSummary(env, files), {}, []), Parsed(env, files), s);
    RemovalSpares(env, Looped(env, w, files, conflicts), listing, s);
  }

  /* ---------- exactly which rows survive ---------- */

  /** Some resolvable manifest asks for the key and carries this reference. */
  predicate SoughtAs(env: Env, ms: seq<Manifest>, k: Key, ref: Option<string>) {
    exists i | 0 <= i < |ms| :: Resolvable(env, ms[i]) && KeyOf(env, ms[i]) == k && ref == Some(SourceRef(ms[i]))
  }

  /**
   * When every call succeeds, a row comes through the pass as it was exactly when a resolvable
   * manifest asks for its key and either that key is conflicted or the manifest's reference is the
   * row's. Without one the row is dropped; with another reference it is replaced.
   */
  lemma RowSurvivesExactly(env: Env, w: World, files: seq<File>, conflicts: set<Key>, listing: seq<Key>, k: Key)
    requires AllSucceed(env) && AreConflicts(env, Parsed(env, files), conflicts) && k in w.owned
    requires IsListing(listing, Looped(env, w, files, conflicts).w.owned)
    ensures SameAt(w.owned, Reconciled(env, w, files, conflicts, listing).w.owned, k) <==>
      if k in conflicts then Sought(env, Parsed(env, files), k)
      else SoughtAs(env, Parsed(env, files), k, w.owned[k].sourceRef)
  {
    var ms := Parsed(env, files);
    var owned := Reconciled(env, w, files, conflicts, listing).w.owned;
    Converges(env, w, files, conflicts, listing);
    if k !in conflicts && Sought(env, ms, k) {
      var i :| 0 <= i < |ms| && Resolvable(env, ms[i]) && KeyOf(env, ms[i]) == k;
      PassAtKey(env, w, files, conflicts, listing, i);
      assert owned[k].sourceRef == Some(SourceRef(ms[i]));
      forall j | 0 <= j < |ms| && Resolvable(env, ms[j]) && KeyOf(env, ms[j]) == k ensures j == i {
        if j != i {
          OnlyClaim(env, conflicts, ms, j, i);
        }
      }
    } else {
      assert SoughtAs(env, ms, k, w.owned[k].sourceRef) ==> Sought(env, ms, k);
    }
  }

  /* ---------- a row whose manifest matches is safe ---------- */

  /** Two rows of one cluster do not name the same job. */
  predicate SameJob(owned: map<Key, Row>, j: Key, k: Key)
    requires j in owned && k in owned
  {
    j.cluster == k.cluster && owned[j].slurm.Some? && owned[j].slurm == owned[k].slurm
  }

  ghost predicate NumbersDiffer(owned: map<Key, Row>) {
    forall j, k :: j in owned && k in owned && j != k ==> !SameJob(owned, j, k)
  }

  /** Every owned row names its own Slurm job, and its cluster will not hand that number out again. */
  ghost predicate OwnNumbers(w: World) {
    NumbersDrawn(w.owned, w.slurms) && NumbersDiffer(w.owned)
  }

  /** A row with a number freshly drawn, or with none, in place of the key's old one. */
  lemma DrawOwn(owned: map<Key, Row>, slurms: map<ClusterId, nat>, k: Key, row: Row)
    requires NumbersDrawn(owned, slurms) && NumbersDiffer(owned)
    requires row.slurm == None || row.slurm == Some(NextNumber(slurms, k.cluster))
    ensures var n := NextNumber(slurms, k.cluster);
      NumbersDrawn(owned[k := row], slurms[k.cluster := n + 1]) && NumbersDiffer(owned[k := row])
  {
    var n := NextNumber(slurms, k.cluster);
    var after := owned[k := row];
    forall i, j | i in after && j in after && i != j ensures !SameJob(after, i, j) {
      if i != k && j != k {
        assert !SameJob(owned, i, j);
      }
    }
  }

  /** The same rows with the key's removed, or with another status. */
  lemma LoseOwn(owned: map<Key, Row>, slurms: map<ClusterId, nat>, k: Key)
    requires NumbersDrawn(owned, slurms) && NumbersDiffer(owned) && k in owned
    ensures var gone := map j | j in owned && j != k :: owned[j];
      NumbersDrawn(gone, slurms) && NumbersDiffer(gone)
    ensures var marked := owned[k := owned[k].(status := CANCELLED)];
      NumbersDrawn(marked, slurms) && NumbersDiffer(marked)
  {
    var gone := map j | j in owned && j != k :: owned[j];
    var marked := owned[k := owned[k].(status := CANCELLED)];
    forall i, j | i in gone && j in gone && i != j ensures !SameJob(gone, i, j) {
      assert !SameJob(owned, i, j);
    }
    forall i, j | i in marked && j in marked && i != j ensures !SameJob(marked, i, j) {
      assert !SameJob(owned, i, j);
    }
  }

  /** The key's row is as it was, its job (if it was live) still is, and nothing was launched for it. */
  ghost predicate LeftAlone(before: Pass, after: Pass, k: Key) {
    && SameAt(before.w.owned, after.w.owned, k)
    && (k in before.w.owned && IsLive(before.w.live, k, before.w.owned[k].slurm) ==>
          IsLive(after.w.live, k, before.w.owned[k].slurm))
    && (forall l :: l in after.launches && l.key == k ==> l in before.launches)
  }

  lemma SubmitAlone(env: Env, w: World, j: Key, ref: string)
    requires OwnNumbers(w)
    ensures OwnNumbers(Submit(env, w, j, ref)) && w.live <= Submit(env, w, j, ref).live
  {
    hide NumbersDrawn, NumbersDiffer, NextNumber;
    var n := NextNumber(w.slurms, j.cluster);
    DrawOwn(w.owned, w.slurms, j, Row(w.rows, Some(ref), FAILED, None));
    DrawOwn(w.owned, w.slurms, j, Row(w.rows, Some(ref), RUNNING, Some(n)));
  }

  lemma CancelAlone(env: Env, w: World, j: Key)
    requires OwnNumbers(w) && j in w.owned
    ensures var w' := Cancel(env, w, j).0;
      && OwnNumbers(w') && OwnNumbers(Drop(w', j))
      && (forall s :: s in w.live && !(s.cluster == j.cluster && w.owned[j].slurm == Some(s.number)) ==> s in w'.live)
  {
    var w' := Cancel(env, w, j).0;
    LoseOwn(w.owned, w.slurms, j);
    assert OwnNumbers(w');
    LoseOwn(w'.owned, w'.slurms, j);
    hide NumbersDrawn, NumbersDiffer, NextNumber;
  }

  lemma DropAlone(w: World, j: Key, k: Key)
    requires OwnNumbers(w) && j in w.owned
    ensures OwnNumbers(Drop(w, j)) && (j != k ==> SameAt(w.owned, Drop(w, j).owned, k))
  {
    LoseOwn(w.owned, w.slurms, j);
  }

  /** Cancelling one row's job spares the row and the job of every other key. */
  lemma CancelSpares(env: Env, w: World, j: Key, k: Key)
    requires OwnNumbers(w) && j in w.owned
    ensures var w' := Cancel(env, w, j).0;
      && (j != k ==> SameAt(w.owned, w'.owned, k) && SameAt(w.owned, Drop(w', j).owned, k))
      && (j != k && k in w.owned && IsLive(w.live, k, w.owned[k].slurm) ==> IsLive(w'.live, k, w.owned[k].slurm))
  {
    if j != k && k in w.owned {
      assert !SameJob(w.owned, j, k);
    }
    hide NumbersDrawn, NumbersDiffer, NextNumber;
  }

  lemma ReplaceAlone(env: Env, p: Pass, j: Key, previous: Option<nat>, m: Manifest, k: Key)
    requires OwnNumbers(p.w)
    ensures var r := Replace(env, p, j, previous, m); OwnNumbers(r.w) && (j != k ==> LeftAlone(p, r, k))
  {
    SubmitAlone(env, Drop(p.w, j), j, SourceRef(m));
  }

  lemma ResubmitAlone(env: Env, p: Pass, j: Key, m: Manifest, k: Key)
    requires OwnNumbers(p.w) && j in p.w.owned
    ensures var r := Resubmit(env, p, j, m); OwnNumbers(r.w) && (j != k ==> LeftAlone(p, r, k))
  {
    CancelAlone(env, p.w, j);
    CancelSpares(env, p.w, j, k);
    hide NumbersDrawn, NumbersDiffer, NextNumber;
    var (w, ok) := Cancel(env, p.w, j);
    if !Active(p.w.owned[j].status) {
      ReplaceAlone(env, p, j, p.w.owned[j].slurm, m, k);
    } else if ok {
      ReplaceAlone(env, p.(w := w, sum := p.sum.(cancelled := p.sum.cancelled + 1)), j, p.w.owned[j].slurm, m, k);
    }
  }

  /** The manifest is none of the key's business, or the key is conflicted, or its row matches already. */
  predicate Spares(env: Env, conflicts: set<Key>, owned: map<Key, Row>, m: Manifest, k: Key) {
    (Resolvable(env, m) && KeyOf(env, m) == k) ==>
      k in conflicts || (k in owned && owned[k].sourceRef == Some(SourceRef(m)))
  }

  lemma HandleAlone(env: Env, conflicts: set<Key>, p: Pass, m: Manifest, k: Key)
    requires OwnNumbers(p.w) && Spares(env, conflicts, p.w.owned, m, k)
    ensures var r := Handle(env, conflicts, p, m); LeftAlone(p, r, k) && OwnNumbers(r.w)
  {
    if Resolvable(env, m) {
      var j := KeyOf(env, m);
      SubmitAlone(env, p.w, j, SourceRef(m));
      if j in p.w.owned {
        ResubmitAlone(env, p.(seen := p.seen + {j}), j, m, k);
      }
      hide Submit, Resubmit;
    }
  }

  lemma {:induction false} LoopAlone(env: Env, conflicts: set<Key>, p: Pass, ms: seq<Manifest>, n: nat, i: nat, k: Key)
    requires OwnNumbers(p.w) && AreConflicts(env, ms, conflicts) && n <= |ms| && i < |ms|
    requires Resolvable(env, ms[i]) && KeyOf(env, ms[i]) == k
    requires k in p.w.owned && p.w.owned[k].sourceRef == Some(SourceRef(ms[i]))
    ensures var r := HandleAll(env, conflicts, p, ms[..n]); OwnNumbers(r.w) && LeftAlone(p, r, k)
  {
    if n > 0 {
      assert ms[..n][..n - 1] == ms[..n - 1];
      LoopAlone(env, conflicts, p, ms, n - 1, i, k);
      var before, m := HandleAll(env, conflicts, p, ms[..n - 1]), ms[n - 1];
      if Resolvable(env, m) && KeyOf(env, m) == k && n - 1 != i {
        TwoClaims(env, ms, if i < n - 1 then i else n - 1, if i < n - 1 then n - 1 else i, k);
      }
      HandleAlone(env, conflicts, before, m, k);
      hide Handle;
    }
  }

  lemma {:induction false} RemovalAlone(env: Env, p: Pass, listing: seq<Key>, k: Key)
    requires OwnNumbers(p.w) && k in p.seen && k in p.w.owned
    ensures var r := RemoveAll(env, p, listing);
      OwnNumbers(r.w) && LeftAlone(p, r, k) && r.seen == p.seen && r.launches == p.launches
  {
    if listing != [] {
      RemovalAlone(env, p, listing[..|listing| - 1], k);
      RemoveAlone(env, RemoveAll(env, p, listing[..|listing| - 1]), listing[|listing| - 1], k);
      hide Remove;
    }
  }

  lemma RemoveAlone(env: Env, p: Pass, j: Key, k: Key)
    requires OwnNumbers(p.w) && k in p.seen
    ensures var r := Remove(env, p, j);
      OwnNumbers(r.w) && LeftAlone(p, r, k) && r.seen == p.seen && r.launches == p.launches
  {
    if j in p.w.owned {
      CancelAlone(env, p.w, j);
      CancelSpares(env, p.w, j, k);
      DropAlone(p.w, j, k);
    }
    hide NumbersDrawn, NumbersDiffer, NextNumber, Cancel, Drop, IsLive, SameAt;
  }

  /**
   * Whatever else the repository holds and whatever the cluster answers, a pass leaves alone every
   * row that carries the reference of some resolvable manifest for its key: it is neither
   * cancelled, deleted nor launched again, not even when other manifests claim the same key.
   */
  lemma MatchingRowLeftAlone(env: Env, w: World, files: seq<File>, conflicts: set<Key>, listing: seq<Key>, i: nat,
                             k: Key)
    requires OwnNumbers(w) && AreConflicts(env, Parsed(env, files), conflicts)
    requires i < |Parsed(env, files)| && Resolvable(env, Parsed(env, files)[i])
      && KeyOf(env, Parsed(env, files)[i]) == k
    requires k in w.owned && w.owned[k].sourceRef == Some(SourceRef(Parsed(env, files)[i]))
    ensures LeftAlone(Pass(w, ScanSummary(env, files), {}, []), Reconciled(env, w, files, conflicts, listing), k)
  {
    var ms := Parsed(env, files);
    var p := Pass(w, ScanSummary(env, files), {}, []);
    assert ms[..|ms|] == ms;
    LoopAlone(env, conflicts, p, ms, |ms|, i, k);
    LoopFrame(env, conflicts, p, ms);
    assert Sought(env, ms, k);
    RemovalAlone(env, HandleAll(env, conflicts, p, ms), listing, k);
  }
}
