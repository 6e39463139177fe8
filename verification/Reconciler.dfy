// The tree reconciler shared by brain-sync, brain-messages and brain-imports:
// compare the wanted files with the blob hashes in the repository, turn the
// differences into operations, pack them into size-bounded commits, push them.

module Reconciler {
  import opened Common

  type Path = string
  type Content = string // bytes
  type Sha = string

  /** The files below a directory: path to git blob hash. */
  type Tree = map<Path, Sha>

  /** `blob_sha`, left abstract. */
  type BlobSha = Content -> Sha

  datatype Op =
    | Create(path: Path, content: Content)
    | Update(path: Path, content: Content, sha: Sha)
    | Delete(path: Path, sha: Sha)

  // ------------------------------------------------------------ operations

  /** The create and update operations for some wanted paths, in order. */
  function Writes(blob: BlobSha, desired: map<Path, Content>, existing: Tree, paths: seq<Path>): seq<Op>
    requires forall p :: p in paths ==> p in desired
  {
    if paths == [] then []
    else
      var p, rest := paths[0], Writes(blob, desired, existing, paths[1..]);
      if p in existing && existing[p] == blob(desired[p]) then rest
      else if p in existing then [Update(p, desired[p], existing[p])] + rest
      else [Create(p, desired[p])] + rest
  }

  function Deletes(existing: Tree, paths: seq<Path>): seq<Op>
    requires forall p :: p in paths ==> p in existing
  {
    if paths == [] then [] else [Delete(paths[0], existing[paths[0]])] + Deletes(existing, paths[1..])
  }

  /** All operations: writes in path order, then deletions in path order. */
  function Diff(blob: BlobSha, desired: map<Path, Content>, existing: Tree, drop: set<Path>): seq<Op>
    requires drop <= existing.Keys
  {
    Writes(blob, desired, existing, SortedKeys(desired.Keys)) + Deletes(existing, SortedKeys(drop))
  }

  /** The tree that is wanted: the desired files, and what was there and is not dropped. */
  function Target(blob: BlobSha, desired: map<Path, Content>, existing: Tree, drop: set<Path>): Tree {
    map p | p in desired.Keys + (existing.Keys - drop) ::
      if p in desired then blob(desired[p]) else existing[p]
  }

  /** brain-sync and brain-imports drop everything that is neither wanted nor kept. */
  function Unkept(desired: map<Path, Content>, existing: Tree, keep: set<Path>): set<Path> {
    existing.Keys - desired.Keys - keep
  }

  /** brain-messages drops what it was told to, unless it is wanted. */
  function Doomed(desired: map<Path, Content>, existing: Tree, delete: set<Path>): set<Path> {
    delete * existing.Keys - desired.Keys
  }

  // ------------------------------------------------------------ the server

  /** Forgejo applies an operation only if the path is in the state the operation expects. */
  function ApplyOp(blob: BlobSha, tree: Tree, o: Op): Option<Tree> {
    match o
    case Create(p, content) => if p in tree then None else Some(tree[p := blob(content)])
    case Update(p, content, sha) => if p in tree && tree[p] == sha then Some(tree[p := blob(content)]) else None
    case Delete(p, sha) => if p in tree && tree[p] == sha then Some(tree - {p}) else None
  }

  function ApplyOps(blob: BlobSha, tree: Tree, ops: seq<Op>): Option<Tree>
    decreases |ops|
  {
    if ops == [] then Some(tree)
    else match ApplyOp(blob, tree, ops[0])
      case None => None
      case Some(next) => ApplyOps(blob, next, ops[1..])
  }

  lemma {:induction false} ApplyConcat(blob: BlobSha, tree: Tree, a: seq<Op>, b: seq<Op>)
    ensures ApplyOps(blob, tree, a + b) ==
            (match ApplyOps(blob, tree, a) case None => None case Some(t) => ApplyOps(blob, t, b))
    decreases |a|
  {
    if a == [] {
      assert a + b == b;
    } else {
      assert (a + b)[1..] == a[1..] + b;
      match ApplyOp(blob, tree, a[0]) {
        case None =>
        case Some(next) => ApplyConcat(blob, next, a[1..], b);
      }
    }
  }

  // ------------------------------------------------------------ what the operations do

  ghost predicate SameAt(s: Tree, t: Tree, p: Path) {
    (p in s <==> p in t) && (p in s ==> s[p] == t[p])
  }

  lemma SameTree(s: Tree, t: Tree)
    requires forall p :: SameAt(s, t, p)
    ensures s == t
  {
    forall p ensures p in s <==> p in t
             ensures p in s ==> s[p] == t[p] {
      assert SameAt(s, t, p);
    }
  }

  lemma {:induction false} WritesApply(blob: BlobSha, desired: map<Path, Content>, existing: Tree, paths: seq<Path>, tree: Tree)
    requires forall p :: p in paths ==> p in desired
    requires Distinct(paths)
    requires forall p :: p in paths ==> SameAt(tree, existing, p)
    ensures var r := ApplyOps(blob, tree, Writes(blob, desired, existing, paths));
            && r.Some?
            && (forall p :: p in paths ==> p in r.value && r.value[p] == blob(desired[p]))
            && (forall p :: p !in paths ==> SameAt(r.value, tree, p))
  {
    if paths != [] {
      var p, rest := paths[0], paths[1..];
      assert SameAt(tree, existing, p);
      var next := tree[p := blob(desired[p])];
      if p in existing && existing[p] == blob(desired[p]) { assert next == tree; }
      forall q | q in rest ensures SameAt(next, existing, q) { assert SameAt(tree, existing, q); }
      WritesApply(blob, desired, existing, rest, next);
      var done := ApplyOps(blob, next, Writes(blob, desired, existing, rest)).value;
      assert SameAt(done, next, p);
      forall q | q !in paths ensures SameAt(done, tree, q) { assert SameAt(done, next, q); }
    }
  }

  lemma {:induction false} DeletesApply(blob: BlobSha, existing: Tree, paths: seq<Path>, tree: Tree)
    requires forall p :: p in paths ==> p in existing
    requires Distinct(paths)
    requires forall p :: p in paths ==> SameAt(tree, existing, p)
    ensures var r := ApplyOps(blob, tree, Deletes(existing, paths));
            && r.Some?
            && (forall p :: p in paths ==> p !in r.value)
            && (forall p :: p !in paths ==> SameAt(r.value, tree, p))
  {
    if paths != [] {
      var p, rest := paths[0], paths[1..];
      assert SameAt(tree, existing, p);
      var next := tree - {p};
      forall q | q in rest ensures SameAt(next, existing, q) { assert SameAt(tree, existing, q); }
      DeletesApply(blob, existing, rest, next);
      var done := ApplyOps(blob, next, Deletes(existing, rest)).value;
      assert SameAt(done, next, p);
      forall q | q !in paths ensures SameAt(done, tree, q) { assert SameAt(done, next, q); }
    }
  }

  /** Applied to the tree they were computed from, the operations give exactly the target. */
  lemma DiffReachesTarget(blob: BlobSha, desired: map<Path, Content>, existing: Tree, drop: set<Path>)
    requires drop <= existing.Keys && drop !! desired.Keys
    ensures ApplyOps(blob, existing, Diff(blob, desired, existing, drop))
         == Some(Target(blob, desired, existing, drop))
  {
    var ws, ds := SortedKeys(desired.Keys), SortedKeys(drop);
    var writes, deletes := Writes(blob, desired, existing, ws), Deletes(existing, ds);
    WritesApply(blob, desired, existing, ws, existing);
    var written := ApplyOps(blob, existing, writes).value;
    forall p | p in ds ensures SameAt(written, existing, p) { assert p !in ws; }
    DeletesApply(blob, existing, ds, written);
    ApplyConcat(blob, existing, writes, deletes);
    var final, target := ApplyOps(blob, written, deletes).value, Target(blob, desired, existing, drop);
    forall p ensures SameAt(final, target, p) {
      if p in ds {} else {
        assert SameAt(final, written, p);
        if p !in ws { assert SameAt(written, existing, p); }
      }
    }
    SameTree(final, target);
  }

  // ------------------------------------------------------------ stopping half way

  /** Every path is as it was or as it is wanted. */
  ghost predicate Between(tree: Tree, before: Tree, after: Tree) {
    forall p :: SameAt(tree, before, p) || SameAt(tree, after, p)
  }

  lemma {:induction false} UntouchedStays(blob: BlobSha, tree: Tree, ops: seq<Op>, p: Path)
    requires ApplyOps(blob, tree, ops).Some?
    requires forall i :: 0 <= i < |ops| ==> ops[i].path != p
    ensures SameAt(ApplyOps(blob, tree, ops).value, tree, p)
    decreases |ops|
  {
    if ops != [] {
      assert ops[0].path != p;
      UntouchedStays(blob, ApplyOp(blob, tree, ops[0]).value, ops[1..], p);
    }
  }

  ghost predicate DistinctPaths(ops: seq<Op>) {
    forall i, j :: 0 <= i < j < |ops| ==> ops[i].path != ops[j].path
  }

  /** Any prefix of operations on different paths leaves each path old or new. */
  lemma PrefixIsBetween(blob: BlobSha, before: Tree, ops: seq<Op>, k: nat)
    requires k <= |ops| && DistinctPaths(ops)
    requires ApplyOps(blob, before, ops).Some?
    ensures ApplyOps(blob, before, ops[..k]).Some?
    ensures Between(ApplyOps(blob, before, ops[..k]).value, before, ApplyOps(blob, before, ops).value)
  {
    var a, b := ops[..k], ops[k..];
    assert ops == a + b;
    ApplyConcat(blob, before, a, b);
    var mid, after := ApplyOps(blob, before, a).value, ApplyOps(blob, before, ops).value;
    forall p ensures SameAt(mid, before, p) || SameAt(mid, after, p) {
      if i :| 0 <= i < k && ops[i].path == p {
        forall j | 0 <= j < |b| ensures b[j].path != p { assert ops[k + j] == b[j]; }
        UntouchedStays(blob, mid, b, p);
      } else {
        UntouchedStays(blob, before, a, p);
      }
    }
  }

  lemma PrependPath(o: Op, rest: seq<Op>, paths: seq<Path>)
    requires DistinctPaths(rest) && o.path in paths
    requires forall i :: 0 <= i < |rest| ==> rest[i].path != o.path && rest[i].path in paths
    ensures DistinctPaths([o] + rest)
    ensures forall i :: 0 <= i < |[o] + rest| ==> ([o] + rest)[i].path in paths
  {
  }

  lemma {:induction false} WritesPaths(blob: BlobSha, desired: map<Path, Content>, existing: Tree, paths: seq<Path>)
    requires forall p :: p in paths ==> p in desired
    requires Distinct(paths)
    ensures var ops := Writes(blob, desired, existing, paths);
            DistinctPaths(ops) && forall i :: 0 <= i < |ops| ==> ops[i].path in paths
  {
    if paths != [] {
      WritesPaths(blob, desired, existing, paths[1..]);
      var rest := Writes(blob, desired, existing, paths[1..]);
      forall i | 0 <= i < |rest| ensures rest[i].path != paths[0] && rest[i].path in paths {
        assert rest[i].path in paths[1..];
      }
      var p := paths[0];
      if p !in existing {
        PrependPath(Create(p, desired[p]), rest, paths);
      } else {
        PrependPath(Update(p, desired[p], existing[p]), rest, paths);
      }
    }
  }

  lemma {:induction false} DeletesPaths(existing: Tree, paths: seq<Path>)
    requires forall p :: p in paths ==> p in existing
    requires Distinct(paths)
    ensures var ops := Deletes(existing, paths);
            DistinctPaths(ops) && forall i :: 0 <= i < |ops| ==> ops[i].path in paths
  {
    if paths != [] {
      DeletesPaths(existing, paths[1..]);
      var rest := Deletes(existing, paths[1..]);
      forall i | 0 <= i < |rest| ensures rest[i].path != paths[0] && rest[i].path in paths {
        assert rest[i].path in paths[1..];
      }
    }
  }

  lemma DiffPaths(blob: BlobSha, desired: map<Path, Content>, existing: Tree, drop: set<Path>)
    requires drop <= existing.Keys && drop !! desired.Keys
    ensures DistinctPaths(Diff(blob, desired, existing, drop))
  {
    var ws, ds := SortedKeys(desired.Keys), SortedKeys(drop);
    WritesPaths(blob, desired, existing, ws);
    DeletesPaths(existing, ds);
    var a, b := Writes(blob, desired, existing, ws), Deletes(existing, ds);
    forall i, j | 0 <= i < |a| && 0 <= j < |b| ensures a[i].path != b[j].path {
      assert a[i].path in ws && b[j].path in ds;
    }
  }

  /** A push that stops after any number of operations has met every precondition and left each path old or new. */
  lemma PartialPush(blob: BlobSha, desired: map<Path, Content>, existing: Tree, drop: set<Path>, k: nat)
    requires drop <= existing.Keys && drop !! desired.Keys
    requires k <= |Diff(blob, desired, existing, drop)|
    ensures var r := ApplyOps(blob, existing, Diff(blob, desired, existing, drop)[..k]);
            r.Some? && Between(r.value, existing, Target(blob, desired, existing, drop))
  {
    DiffReachesTarget(blob, desired, existing, drop);
    DiffPaths(blob, desired, existing, drop);
    PrefixIsBetween(blob, existing, Diff(blob, desired, existing, drop), k);
  }

  /** The tree has, at the path of every operation, what it had when they were computed. */
  ghost predicate Unmoved(now: Tree, existing: Tree, ops: seq<Op>) {
    forall i :: 0 <= i < |ops| ==> SameAt(now, existing, ops[i].path)
  }

  lemma OneAccepted(blob: BlobSha, now: Tree, existing: Tree, o: Op)
    requires ApplyOp(blob, existing, o).Some?
    ensures ApplyOp(blob, now, o).Some? <==> SameAt(now, existing, o.path)
    ensures ApplyOp(blob, now, o).Some? ==> forall p :: p != o.path ==>
      (SameAt(ApplyOp(blob, now, o).value, ApplyOp(blob, existing, o).value, p) <==> SameAt(now, existing, p))
  {
  }

  lemma {:induction false} AcceptedIff(blob: BlobSha, now: Tree, existing: Tree, ops: seq<Op>)
    requires DistinctPaths(ops) && ApplyOps(blob, existing, ops).Some?
    ensures ApplyOps(blob, now, ops).Some? <==> Unmoved(now, existing, ops)
    decreases |ops|
  {
    if ops != [] {
      OneAccepted(blob, now, existing, ops[0]);
      if ApplyOp(blob, now, ops[0]).Some? {
        var now', existing' := ApplyOp(blob, now, ops[0]).value, ApplyOp(blob, existing, ops[0]).value;
        AcceptedIff(blob, now', existing', ops[1..]);
        forall i | 0 < i < |ops| ensures SameAt(now', existing', ops[i].path) <==> SameAt(now, existing, ops[i].path) {
          assert ops[i].path != ops[0].path;
        }
        RestUnmoved(now, existing, now', existing', ops);
      } else {
        assert !SameAt(now, existing, ops[0].path);
      }
    }
  }

  lemma RestUnmoved(now: Tree, existing: Tree, now': Tree, existing': Tree, ops: seq<Op>)
    requires ops != [] && SameAt(now, existing, ops[0].path)
    requires forall i :: 0 < i < |ops| ==> (SameAt(now', existing', ops[i].path) <==> SameAt(now, existing, ops[i].path))
    ensures Unmoved(now', existing', ops[1..]) <==> Unmoved(now, existing, ops)
  {
    if Unmoved(now', existing', ops[1..]) {
      forall i | 0 < i < |ops| ensures SameAt(now, existing, ops[i].path) { assert ops[1..][i - 1] == ops[i]; }
    }
  }

  /**
   * Nobody's change is overwritten: operations computed from one listing are all
   * accepted by a tree that has moved on exactly if it has not moved at any path
   * they are about.
   */
  lemma ConcurrentEdits(blob: BlobSha, desired: map<Path, Content>, existing: Tree, drop: set<Path>, now: Tree)
    requires drop <= existing.Keys && drop !! desired.Keys
    ensures var ops := Diff(blob, desired, existing, drop);
      ApplyOps(blob, now, ops).Some? <==> Unmoved(now, existing, ops)
  {
    DiffReachesTarget(blob, desired, existing, drop);
    DiffPaths(blob, desired, existing, drop);
    AcceptedIff(blob, now, existing, Diff(blob, desired, existing, drop));
  }

  /** brain-sync: running again from any half-way tree reaches the same target. */
  lemma ResumeUnkept(blob: BlobSha, desired: map<Path, Content>, existing: Tree, keep: set<Path>, tree: Tree)
    requires Between(tree, existing, Target(blob, desired, existing, Unkept(desired, existing, keep)))
    ensures Target(blob, desired, tree, Unkept(desired, tree, keep))
         == Target(blob, desired, existing, Unkept(desired, existing, keep))
  {
    var s, t := Target(blob, desired, tree, Unkept(desired, tree, keep)),
                Target(blob, desired, existing, Unkept(desired, existing, keep));
    forall p ensures SameAt(s, t, p) {
      assert SameAt(tree, existing, p) || SameAt(tree, t, p);
    }
    SameTree(s, t);
  }

  /** brain-messages: the same, with the same set of paths to delete. */
  lemma ResumeDoomed(blob: BlobSha, desired: map<Path, Content>, existing: Tree, delete: set<Path>, tree: Tree)
    requires Between(tree, existing, Target(blob, desired, existing, Doomed(desired, existing, delete)))
    ensures Target(blob, desired, tree, Doomed(desired, tree, delete))
         == Target(blob, desired, existing, Doomed(desired, existing, delete))
  {
    var s, t := Target(blob, desired, tree, Doomed(desired, tree, delete)),
                Target(blob, desired, existing, Doomed(desired, existing, delete));
    forall p ensures SameAt(s, t, p) {
      assert SameAt(tree, existing, p) || SameAt(tree, t, p);
    }
    SameTree(s, t);
  }

  lemma {:induction false} NoWrites(blob: BlobSha, desired: map<Path, Content>, existing: Tree, paths: seq<Path>)
    requires forall p :: p in paths ==> p in desired
    ensures Writes(blob, desired, existing, paths) == [] <==>
            forall p :: p in paths ==> p in existing && existing[p] == blob(desired[p])
  {
    if paths != [] {
      NoWrites(blob, desired, existing, paths[1..]);
      assert paths == [paths[0]] + paths[1..];
    }
  }

  /** No operations are issued exactly when the tree already is the target. */
  lemma QuietIffAtTarget(blob: BlobSha, desired: map<Path, Content>, existing: Tree, drop: set<Path>)
    requires drop <= existing.Keys && drop !! desired.Keys
    ensures Diff(blob, desired, existing, drop) == [] <==> existing == Target(blob, desired, existing, drop)
  {
    var ws, ds := SortedKeys(desired.Keys), SortedKeys(drop);
    NoWrites(blob, desired, existing, ws);
    var target := Target(blob, desired, existing, drop);
    if Diff(blob, desired, existing, drop) == [] {
      assert ds == [];
      assert drop == {};
      forall p ensures SameAt(existing, target, p) { if p in desired { assert p in ws; } }
      SameTree(existing, target);
    }
    assert forall p :: p in drop ==> p !in target;
  }

  /** After a complete push, running again issues nothing. */
  lemma RerunIsQuiet(blob: BlobSha, desired: map<Path, Content>, existing: Tree, keep: set<Path>)
    ensures var done := Target(blob, desired, existing, Unkept(desired, existing, keep));
            Diff(blob, desired, done, Unkept(desired, done, keep)) == []
  {
    var done := Target(blob, desired, existing, Unkept(desired, existing, keep));
    ResumeUnkept(blob, desired, existing, keep, done);
    QuietIffAtTarget(blob, desired, done, Unkept(desired, done, keep));
  }
}
