// Packing operations into commits of bounded size, and pushing them. The packing
// is greedy and in order; it is proved lossless, bounded and optimal.

module Commits {
  import opened Common
  import opened Reconciler

  /** Length of the base64 text of an operation's content; deletions carry none. */
  function Size(o: Op): nat {
    if o.Delete? then 0 else 4 * ((|o.content| + 2) / 3)
  }

  /** Base64 writes four characters for every three bytes begun. */
  lemma SizeIs(o: Op)
    ensures o.Delete? ==> Size(o) == 0
    ensures !o.Delete? ==> Size(o) % 4 == 0 && 4 * |o.content| <= 3 * Size(o) < 4 * |o.content| + 12
  {
  }

  function Weight(ops: seq<Op>): nat {
    if ops == [] then 0 else Weight(ops[..|ops| - 1]) + Size(ops[|ops| - 1])
  }

  /** The batches made from the open batch `batch` and the operations still to come. */
  function Pack(limit: nat, batch: seq<Op>, rest: seq<Op>): (batches: seq<seq<Op>>)
    decreases |rest|
  {
    if rest == [] then [batch]
    else if batch != [] && Weight(batch) + Size(rest[0]) > limit then
      [batch] + Pack(limit, [rest[0]], rest[1..])
    else Pack(limit, batch + [rest[0]], rest[1..])
  }

  function Batches(limit: nat, ops: seq<Op>): seq<seq<Op>> {
    Pack(limit, [], ops)
  }

  /** The rule for one commit: a single operation, or few enough bytes. */
  ghost predicate Fits(limit: nat, batch: seq<Op>) {
    |batch| <= 1 || Weight(batch) <= limit
  }

  // ------------------------------------------------------------ lossless, bounded

  lemma WeightSnoc(ops: seq<Op>, o: Op)
    ensures Weight(ops + [o]) == Weight(ops) + Size(o)
  {
    assert (ops + [o])[..|ops|] == ops;
  }

  lemma {:induction false} WeightConcat(a: seq<Op>, b: seq<Op>)
    ensures Weight(a + b) == Weight(a) + Weight(b)
  {
    if b == [] {
      assert a + b == a;
    } else {
      var n := |b| - 1;
      assert a + b == (a + b[..n]) + [b[n]];
      WeightConcat(a, b[..n]);
      WeightSnoc(a + b[..n], b[n]);
    }
  }

  lemma {:induction false} PackLossless(limit: nat, batch: seq<Op>, rest: seq<Op>)
    ensures Flatten(Pack(limit, batch, rest)) == batch + rest
    decreases |rest|
  {
    if rest == [] {
      assert Pack(limit, batch, rest)[1..] == [];
    } else {
      assert [rest[0]] + rest[1..] == rest;
      if batch != [] && Weight(batch) + Size(rest[0]) > limit {
        var more := Pack(limit, [rest[0]], rest[1..]);
        PackLossless(limit, [rest[0]], rest[1..]);
        assert ([batch] + more)[1..] == more;
      } else {
        PackLossless(limit, batch + [rest[0]], rest[1..]);
        assert batch + [rest[0]] + rest[1..] == batch + rest;
      }
    }
  }

  lemma {:induction false} PackFits(limit: nat, batch: seq<Op>, rest: seq<Op>)
    requires Fits(limit, batch) && (batch != [] || rest != [])
    ensures forall i :: 0 <= i < |Pack(limit, batch, rest)| ==>
              Fits(limit, Pack(limit, batch, rest)[i]) && Pack(limit, batch, rest)[i] != []
    decreases |rest|
  {
    if rest != [] {
      if batch != [] && Weight(batch) + Size(rest[0]) > limit {
        PackFits(limit, [rest[0]], rest[1..]);
      } else {
        WeightSnoc(batch, rest[0]);
        PackFits(limit, batch + [rest[0]], rest[1..]);
      }
    }
  }

  /** Concatenated, the batches are the operations in order; each is one operation or fits the limit. */
  lemma BatchesLossless(limit: nat, ops: seq<Op>)
    requires ops != []
    ensures Flatten(Batches(limit, ops)) == ops
    ensures forall i :: 0 <= i < |Batches(limit, ops)| ==>
              Fits(limit, Batches(limit, ops)[i]) && Batches(limit, ops)[i] != []
  {
    PackLossless(limit, [], ops);
    assert [] + ops == ops;
    PackFits(limit, [], ops);
  }

  // ------------------------------------------------------------ optimal

  /** Starting with a larger open batch never saves a batch. */
  lemma {:induction false} LargerCostsMore(limit: nat, extra: seq<Op>, batch: seq<Op>, rest: seq<Op>)
    requires batch != []
    ensures |Pack(limit, batch, rest)| <= |Pack(limit, extra + batch, rest)|
    decreases |rest|, 1
  {
    if rest != [] {
      var o, tail := rest[0], rest[1..];
      WeightConcat(extra, batch);
      if Weight(extra + batch) + Size(o) <= limit {
        assert extra + batch + [o] == extra + (batch + [o]);
        LargerCostsMore(limit, extra, batch + [o], tail);
      } else if Weight(batch) + Size(o) <= limit {
        LargerCostsOne(limit, batch, [o], tail);
      }
    }
  }

  /** And it costs at most one batch. */
  lemma {:induction false} LargerCostsOne(limit: nat, extra: seq<Op>, batch: seq<Op>, rest: seq<Op>)
    requires batch != []
    ensures |Pack(limit, extra + batch, rest)| <= 1 + |Pack(limit, batch, rest)|
    decreases |rest|, 0
  {
    if rest != [] {
      var o, tail := rest[0], rest[1..];
      WeightConcat(extra, batch);
      if Weight(extra + batch) + Size(o) <= limit {
        assert extra + batch + [o] == extra + (batch + [o]);
        LargerCostsOne(limit, extra, batch + [o], tail);
      } else if Weight(batch) + Size(o) <= limit {
        LargerCostsMore(limit, batch, [o], tail);
      }
    }
  }

  /**
   * Greedy stays ahead: if another split is inside the piece `before + batch + coming`
   * and has the pieces `later` after it, the greedy packing needs no more batches.
   */
  lemma {:induction false} StaysAhead(limit: nat, before: seq<Op>, batch: seq<Op>, coming: seq<Op>, later: seq<seq<Op>>)
    requires Fits(limit, before + batch + coming)
    requires forall i :: 0 <= i < |later| ==> Fits(limit, later[i])
    ensures |Pack(limit, batch, coming + Flatten(later))| <= 1 + |later|
    decreases |coming + Flatten(later)|, |later|
  {
    var rest := coming + Flatten(later);
    if rest == [] {
    } else if coming != [] {
      var o := rest[0];
      assert rest[1..] == coming[1..] + Flatten(later);
      assert before + batch + coming == before + (batch + [o]) + coming[1..];
      if batch != [] {
        assert before + batch + coming == before + (batch + [o] + coming[1..]);
        WeightConcat(before, batch + [o] + coming[1..]);
        WeightConcat(batch + [o], coming[1..]);
        WeightSnoc(batch, o);
      }
      StaysAhead(limit, before, batch + [o], coming[1..], later);
    } else {
      var piece, others := later[0], later[1..];
      assert rest == piece + Flatten(others);
      if piece == [] {
        assert rest == [] + Flatten(others);
        StaysAhead(limit, before, batch, [], others);
      } else {
        var o := rest[0];
        assert rest[1..] == piece[1..] + Flatten(others);
        assert [] + [o] + piece[1..] == piece;
        StaysAhead(limit, [], [o], piece[1..], others);
        LargerCostsOne(limit, batch, [o], rest[1..]);
        assert [] + [o] == [o];
      }
    }
  }

  /** No other way of cutting the operations, in order, into commits that obey the rule has fewer commits. */
  lemma BatchesOptimal(limit: nat, ops: seq<Op>, other: seq<seq<Op>>)
    requires ops != [] && Flatten(other) == ops
    requires forall i :: 0 <= i < |other| ==> Fits(limit, other[i])
    ensures |Batches(limit, ops)| <= |other|
  {
    assert [] + [] + other[0] == other[0];
    StaysAhead(limit, [], [], other[0], other[1..]);
  }

  // ------------------------------------------------------------ pushing

  /** The repository: each accepted request is one commit that applies all its operations or none. */
  class Forgejo {
    var tree: Tree
    var commits: seq<seq<Op>>

    constructor (initial: Tree)
      ensures tree == initial && commits == []
    {
      tree, commits := initial, [];
    }

    method Post(blob: BlobSha, batch: seq<Op>) returns (accepted: bool)
      modifies this
      ensures accepted == ApplyOps(blob, old(tree), batch).Some?
      ensures accepted ==> Some(tree) == ApplyOps(blob, old(tree), batch) && commits == old(commits) + [batch]
      ensures !accepted ==> tree == old(tree) && commits == old(commits)
    {
      var next := ApplyOps(blob, tree, batch);
      accepted := next.Some?;
      if accepted { tree, commits := next.value, commits + [batch]; }
    }
  }

  method PackLoop(limit: nat, ops: seq<Op>) returns (batches: seq<seq<Op>>)
    ensures batches == Batches(limit, ops)
  {
    var batch, size := [], 0;
    batches := [];
    for i := 0 to |ops|
      invariant size == Weight(batch)
      invariant Batches(limit, ops) == batches + Pack(limit, batch, ops[i..])
    {
      var o := ops[i];
      assert ops[i..][0] == o && ops[i..][1..] == ops[i + 1..];
      WeightSnoc(batch, o);
      if batch != [] && size + Size(o) > limit {
        assert batches + ([batch] + Pack(limit, [o], ops[i + 1..])) == batches + [batch] + Pack(limit, [o], ops[i + 1..]);
        batches := batches + [batch];
        batch, size := [], 0;
        assert batch + [o] == [o];
        WeightSnoc(batch, o);
      }
      batch := batch + [o];
      size := size + Size(o);
    }
    assert ops[|ops|..] == [];
    batches := batches + [batch];
  }

  /**
   * Pushes the batches in order, stopping after `budget` of them (a process that
   * dies between commits). Every commit is accepted; the tree is the operations
   * of the pushed batches applied to the tree at the start.
   */
  method Push(repo: Forgejo, blob: BlobSha, batches: seq<seq<Op>>, budget: nat) returns (pushed: nat)
    requires ApplyOps(blob, repo.tree, Flatten(batches)).Some?
    modifies repo
    ensures pushed == if budget < |batches| then budget else |batches|
    ensures Some(repo.tree) == ApplyOps(blob, old(repo.tree), Flatten(batches[..pushed]))
    ensures repo.commits == old(repo.commits) + batches[..pushed]
  {
    pushed := 0;
    while pushed < |batches| && pushed < budget
      invariant pushed <= |batches| && pushed <= budget
      invariant Some(repo.tree) == ApplyOps(blob, old(repo.tree), Flatten(batches[..pushed]))
      invariant repo.commits == old(repo.commits) + batches[..pushed]
    {
      PushStep(blob, old(repo.tree), batches, pushed);
      assert batches[..pushed + 1] == batches[..pushed] + [batches[pushed]];
      var accepted := repo.Post(blob, batches[pushed]);
      assert accepted;
      pushed := pushed + 1;
    }
  }

  /** A batch whose turn has come applies to the tree the earlier batches left. */
  lemma PushStep(blob: BlobSha, start: Tree, batches: seq<seq<Op>>, k: nat)
    requires k < |batches| && ApplyOps(blob, start, Flatten(batches)).Some?
    ensures ApplyOps(blob, start, Flatten(batches[..k])).Some?
    ensures ApplyOps(blob, start, Flatten(batches[..k + 1])).Some?
    ensures ApplyOps(blob, start, Flatten(batches[..k + 1]))
         == ApplyOps(blob, ApplyOps(blob, start, Flatten(batches[..k])).value, batches[k])
  {
    assert batches == batches[..k + 1] + batches[k + 1..];
    FlattenConcat(batches[..k + 1], batches[k + 1..]);
    ApplyConcat(blob, start, Flatten(batches[..k + 1]), Flatten(batches[k + 1..]));
    assert batches[..k + 1] == batches[..k] + [batches[k]];
    FlattenSnoc(batches[..k], batches[k]);
    ApplyConcat(blob, start, Flatten(batches[..k]), batches[k]);
  }

  /**
   * `apply_changes` with `drop` the paths to delete, allowed to die after
   * `budget` commits: every operation's precondition held when it was applied,
   * each path is as it was or as wanted, and a push that was not cut short
   * leaves exactly the target, in one commit per batch.
   */
  method ApplyChanges(repo: Forgejo, blob: BlobSha, limit: nat, desired: map<Path, Content>, drop: set<Path>, budget: nat)
    returns (complete: bool)
    requires drop <= repo.tree.Keys && drop !! desired.Keys
    modifies repo
    ensures Between(repo.tree, old(repo.tree), Target(blob, desired, old(repo.tree), drop))
    ensures complete ==> repo.tree == Target(blob, desired, old(repo.tree), drop)
    ensures var all := CommitsFor(limit, Diff(blob, desired, old(repo.tree), drop));
      && complete == (budget >= |all|)
      && repo.commits == old(repo.commits) + all[..if budget < |all| then budget else |all|]
    ensures old(repo.tree) == Target(blob, desired, old(repo.tree), drop) ==> complete && repo.commits == old(repo.commits)
    ensures budget >= |Diff(blob, desired, old(repo.tree), drop)| ==> complete
  {
    var existing := repo.tree;
    var ops := DiffLoop(blob, desired, existing, drop);
    DiffReachesTarget(blob, desired, existing, drop);
    QuietIffAtTarget(blob, desired, existing, drop);
    if ops == [] { return true; }
    var batches := PackLoop(limit, ops);
    BatchesLossless(limit, ops);
    var pushed := Push(repo, blob, batches, budget);
    SentIsBetween(blob, desired, existing, drop, batches, pushed);
    complete := pushed == |batches|;
    if complete { assert batches[..pushed] == batches; }
    FlattenLength(batches);
  }

  function CommitsFor(limit: nat, ops: seq<Op>): seq<seq<Op>> {
    if ops == [] then [] else Batches(limit, ops)
  }

  /** brain-sync's `apply_changes`: everything that is neither wanted nor kept goes away. */
  method SyncDirectory(repo: Forgejo, blob: BlobSha, limit: nat, desired: map<Path, Content>, keep: set<Path>, budget: nat)
    returns (complete: bool)
    modifies repo
    ensures var target := Target(blob, desired, old(repo.tree), Unkept(desired, old(repo.tree), keep));
            && Between(repo.tree, old(repo.tree), target)
            && (complete ==> repo.tree == target)
            && (complete ==> forall p :: p in repo.tree <==> p in desired || (p in keep && p in old(repo.tree)))
    ensures var all := CommitsFor(limit, Diff(blob, desired, old(repo.tree), Unkept(desired, old(repo.tree), keep)));
      && complete == (budget >= |all|)
      && repo.commits == old(repo.commits) + all[..if budget < |all| then budget else |all|]
    ensures budget >= |Diff(blob, desired, old(repo.tree), Unkept(desired, old(repo.tree), keep))| ==> complete
  {
    complete := ApplyChanges(repo, blob, limit, desired, Unkept(desired, repo.tree, keep), budget);
  }

  /** brain-messages' `apply_changes`: the listed paths go away unless they are wanted. */
  method SyncMessages(repo: Forgejo, blob: BlobSha, limit: nat, desired: map<Path, Content>, delete: set<Path>, budget: nat)
    returns (complete: bool)
    modifies repo
    ensures var target := Target(blob, desired, old(repo.tree), Doomed(desired, old(repo.tree), delete));
            && Between(repo.tree, old(repo.tree), target)
            && (complete ==> repo.tree == target)
            && (complete ==> forall p :: p in repo.tree <==> p in desired || (p in old(repo.tree) && p !in delete))
    ensures var all := CommitsFor(limit, Diff(blob, desired, old(repo.tree), Doomed(desired, old(repo.tree), delete)));
      && complete == (budget >= |all|)
      && repo.commits == old(repo.commits) + all[..if budget < |all| then budget else |all|]
    ensures budget >= |Diff(blob, desired, old(repo.tree), Doomed(desired, old(repo.tree), delete))| ==> complete
  {
    complete := ApplyChanges(repo, blob, limit, desired, Doomed(desired, repo.tree, delete), budget);
  }

  /** brain-imports' `commit`: replaces the directory, unless it changed since it was fetched. */
  method CommitImport(repo: Forgejo, blob: BlobSha, limit: nat, fetched: Tree, desired: map<Path, Content>)
    returns (committed: bool)
    modifies repo
    ensures committed <==> old(repo.tree) == fetched
    ensures !committed ==> repo.tree == old(repo.tree) && repo.commits == old(repo.commits)
    ensures committed ==> repo.tree == Blobs(blob, desired)
  {
    committed := repo.tree == fetched;
    if committed {
      var drop := Unkept(desired, fetched, {});
      var complete := ApplyChanges(repo, blob, limit, desired, drop, |Diff(blob, desired, fetched, drop)|);
      assert complete;
      NothingKept(blob, desired, fetched);
    }
  }

  function Blobs(blob: BlobSha, desired: map<Path, Content>): Tree {
    map p | p in desired :: blob(desired[p])
  }

  lemma NothingKept(blob: BlobSha, desired: map<Path, Content>, existing: Tree)
    ensures Target(blob, desired, existing, Unkept(desired, existing, {})) == Blobs(blob, desired)
  {
  }

  lemma SentIsBetween(blob: BlobSha, desired: map<Path, Content>, existing: Tree, drop: set<Path>,
                      batches: seq<seq<Op>>, k: nat)
    requires drop <= existing.Keys && drop !! desired.Keys
    requires k <= |batches| && Flatten(batches) == Diff(blob, desired, existing, drop)
    ensures var r := ApplyOps(blob, existing, Flatten(batches[..k]));
            r.Some? && Between(r.value, existing, Target(blob, desired, existing, drop))
  {
    assert batches == batches[..k] + batches[k..];
    FlattenConcat(batches[..k], batches[k..]);
    var sent := Flatten(batches[..k]);
    assert sent == Flatten(batches)[..|sent|];
    PartialPush(blob, desired, existing, drop, |sent|);
  }

  lemma {:induction false} FlattenLength(batches: seq<seq<Op>>)
    requires forall i :: 0 <= i < |batches| ==> batches[i] != []
    ensures |batches| <= |Flatten(batches)|
  {
    if batches != [] { FlattenLength(batches[1..]); }
  }

  /** The two loops that build the operations. */
  method DiffLoop(blob: BlobSha, desired: map<Path, Content>, existing: Tree, drop: set<Path>) returns (ops: seq<Op>)
    requires drop <= existing.Keys
    ensures ops == Diff(blob, desired, existing, drop)
  {
    var writes := WriteLoop(blob, desired, existing, SortedKeys(desired.Keys));
    var deletes := DeleteLoop(existing, SortedKeys(drop));
    ops := writes + deletes;
  }

  function WriteOp(desired: map<Path, Content>, existing: Tree, p: Path): Op
    requires p in desired
  {
    if p in existing then Update(p, desired[p], existing[p]) else Create(p, desired[p])
  }

  lemma WriteStep(blob: BlobSha, desired: map<Path, Content>, existing: Tree, paths: seq<Path>, i: nat, ops: seq<Op>)
    requires i < |paths| && forall p :: p in paths ==> p in desired
    ensures var p, later := paths[i], Writes(blob, desired, existing, paths[i + 1..]);
            ops + Writes(blob, desired, existing, paths[i..]) ==
            if p in existing && existing[p] == blob(desired[p]) then ops + later
            else (ops + [WriteOp(desired, existing, p)]) + later
  {
    var p, later := paths[i], Writes(blob, desired, existing, paths[i + 1..]);
    assert paths[i..][0] == p && paths[i..][1..] == paths[i + 1..];
    var o := WriteOp(desired, existing, p);
    assert (ops + [o]) + later == ops + ([o] + later);
  }

  method WriteLoop(blob: BlobSha, desired: map<Path, Content>, existing: Tree, paths: seq<Path>) returns (ops: seq<Op>)
    requires forall p :: p in paths ==> p in desired
    ensures ops == Writes(blob, desired, existing, paths)
  {
    ops := [];
    for i := 0 to |paths|
      invariant ops + Writes(blob, desired, existing, paths[i..]) == Writes(blob, desired, existing, paths)
    {
      var p := paths[i];
      WriteStep(blob, desired, existing, paths, i, ops);
      if p in existing && existing[p] == blob(desired[p]) { continue; }
      ops := ops + [WriteOp(desired, existing, p)];
    }
    assert paths[|paths|..] == [];
  }

  method DeleteLoop(existing: Tree, paths: seq<Path>) returns (ops: seq<Op>)
    requires forall p :: p in paths ==> p in existing
    ensures ops == Deletes(existing, paths)
  {
    ops := [];
    for i := 0 to |paths|
      invariant ops + Deletes(existing, paths[i..]) == Deletes(existing, paths)
    {
      assert paths[i..][0] == paths[i] && paths[i..][1..] == paths[i + 1..];
      ghost var later := Deletes(existing, paths[i + 1..]);
      var o := Delete(paths[i], existing[paths[i]]);
      assert (ops + [o]) + later == ops + ([o] + later);
      ops := ops + [o];
    }
    assert paths[|paths|..] == [];
  }
}
