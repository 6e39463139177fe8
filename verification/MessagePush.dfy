// How a thread's notes reach the repository: the month notes are files with
// blob hashes, pushed in batches before the index; a push that dies leaves
// every note old or new, which is what the run-level proof assumes.

module MessagePush {
  import opened Reconciler
  import opened Commits
  import opened MessageSync
  import opened MessageRuns

  /** The path of a month's note; different months have different paths. */
  type PathOf = nat -> Path

  ghost predicate Injective(path: PathOf) {
    forall j: nat, k: nat :: path(j) == path(k) ==> j == k
  }

  /** The notes as the files of a directory. */
  function Files(path: PathOf, notes: Notes): map<Path, Content>
    requires Injective(path)
  {
    map k | k in notes :: path(k) := notes[k]
  }

  function AsTree(path: PathOf, blob: BlobSha, notes: Notes): Tree
    requires Injective(path)
  {
    map k | k in notes :: path(k) := blob(notes[k])
  }

  lemma TreeAt(path: PathOf, blob: BlobSha, notes: Notes, k: nat)
    requires Injective(path)
    ensures path(k) in AsTree(path, blob, notes) <==> k in notes
    ensures k in notes ==> AsTree(path, blob, notes)[path(k)] == blob(notes[k])
    ensures path(k) in Files(path, notes) <==> k in notes
    ensures k in notes ==> Files(path, notes)[path(k)] == notes[k]
  {
  }

  function Doom(path: PathOf, deletions: set<nat>): set<Path> {
    set k | k in deletions :: path(k)
  }

  /** Pushing a sync's files and deletions aims at exactly the folder the sync describes. */
  lemma PushTarget(path: PathOf, blob: BlobSha, before: Notes, s: Synced)
    requires Injective(path) && s.deletions !! s.files.Keys
    ensures var existing, desired := AsTree(path, blob, before), Files(path, s.files);
            Target(blob, desired, existing, Doomed(desired, existing, Doom(path, s.deletions)))
            == AsTree(path, blob, Applied(before, s))
  {
    var existing, desired := AsTree(path, blob, before), Files(path, s.files);
    var t, u := Target(blob, desired, existing, Doomed(desired, existing, Doom(path, s.deletions))),
                AsTree(path, blob, Applied(before, s));
    forall p ensures SameAt(t, u, p) {
      if k: nat :| path(k) == p {
        TreeAt(path, blob, before, k);
        TreeAt(path, blob, s.files, k);
        TreeAt(path, blob, Applied(before, s), k);
        assert p in Doom(path, s.deletions) <==> k in s.deletions;
      }
    }
    SameTree(t, u);
  }

  /** The notes a half-pushed tree holds. */
  ghost function Half(path: PathOf, blob: BlobSha, before: Notes, after: Notes, tree: Tree): Notes
    requires Injective(path)
  {
    map k | k in before.Keys + after.Keys &&
            k in (if SameAt(tree, AsTree(path, blob, after), path(k)) then after else before) ::
      (if SameAt(tree, AsTree(path, blob, after), path(k)) then after else before)[k]
  }

  lemma HalfEntry(path: PathOf, blob: BlobSha, before: Notes, after: Notes, tree: Tree, k: nat)
    requires Injective(path)
    ensures SameEntry(Half(path, blob, before, after, tree),
                      if SameAt(tree, AsTree(path, blob, after), path(k)) then after else before, k)
  {
  }

  lemma HalfAt(path: PathOf, blob: BlobSha, before: Notes, after: Notes, tree: Tree, k: nat)
    requires Injective(path)
    requires Between(tree, AsTree(path, blob, before), AsTree(path, blob, after))
    ensures var mid := Half(path, blob, before, after, tree);
            && SameEntry(mid, if SameAt(tree, AsTree(path, blob, after), path(k)) then after else before, k)
            && SameAt(tree, AsTree(path, blob, mid), path(k))
  {
    var mid := Half(path, blob, before, after, tree);
    var a, b := AsTree(path, blob, before), AsTree(path, blob, after);
    HalfEntry(path, blob, before, after, tree, k);
    assert SameAt(tree, a, path(k)) || SameAt(tree, b, path(k));
    TreeAt(path, blob, before, k);
    TreeAt(path, blob, after, k);
    TreeAt(path, blob, mid, k);
  }

  /** A tree between two folders is a folder each of whose notes is old or new. */
  lemma BetweenIsPartial(path: PathOf, blob: BlobSha, before: Notes, after: Notes, tree: Tree) returns (mid: Notes)
    requires Injective(path)
    requires Between(tree, AsTree(path, blob, before), AsTree(path, blob, after))
    ensures tree == AsTree(path, blob, mid) && Partial(before, after, mid)
    ensures tree == AsTree(path, blob, after) ==> mid == after
  {
    var a, b := AsTree(path, blob, before), AsTree(path, blob, after);
    mid := Half(path, blob, before, after, tree);
    forall k: nat ensures SameEntry(mid, before, k) || SameEntry(mid, after, k) {
      HalfAt(path, blob, before, after, tree, k);
    }
    forall p ensures SameAt(tree, AsTree(path, blob, mid), p) {
      assert SameAt(tree, a, p) || SameAt(tree, b, p);
      if k: nat :| path(k) == p { HalfAt(path, blob, before, after, tree, k); }
    }
    SameTree(tree, AsTree(path, blob, mid));
    if tree == b {
      forall k: nat ensures SameEntry(mid, after, k) {
        HalfAt(path, blob, before, after, tree, k);
        assert SameAt(tree, b, path(k));
      }
      SameNotes(mid, after);
    }
  }

  /**
   * The content push of one run, dying after `commits` commits: the folder is
   * one the run-level proof accepts, and it is complete if the push was.
   */
  method PushThread(repo: Forgejo, path: PathOf, blob: BlobSha, limit: nat, ghost before: Notes, s: Synced, commits: nat)
    returns (complete: bool, ghost mid: Notes)
    requires Injective(path) && s.deletions !! s.files.Keys
    requires repo.tree == AsTree(path, blob, before)
    modifies repo
    ensures repo.tree == AsTree(path, blob, mid)
    ensures Partial(before, Applied(before, s), mid)
    ensures complete ==> mid == Applied(before, s)
    ensures var desired, delete := Files(path, s.files), Doom(path, s.deletions);
      complete == (commits >= |CommitsFor(limit, Diff(blob, desired, old(repo.tree), Doomed(desired, old(repo.tree), delete)))|)
  {
    PushTarget(path, blob, before, s);
    complete := SyncMessages(repo, blob, limit, Files(path, s.files), Doom(path, s.deletions), commits);
    mid := BetweenIsPartial(path, blob, before, Applied(before, s), repo.tree);
  }
}
