// How a Riffado cycle reaches the repository: the index file and the notes are
// written by one push, in path order and in batches. A push that dies leaves a
// folder that the next cycle takes to be up to date although it is not, if and
// only if the index was pushed and the update of a note was not.

module RiffadoPush {
  import opened Common
  import opened Reconciler
  import opened Commits
  import opened Riffado

  /** The text of the index file. */
  type Encoding = Index -> Content

  /** The path is a note's: below the folder, and not starting with a dot. */
  predicate InFolder(folder: string, p: Path) {
    |p| > |folder| && p[..|folder|] == folder && p[|folder|] > '.'
  }

  function IndexPath(folder: string): Path {
    folder + ".index.json"
  }

  lemma IndexIsLeast(folder: string, p: Path)
    requires InFolder(folder, p)
    ensures Leq(IndexPath(folder), p) && p != IndexPath(folder)
  {
    assert p == folder + p[|folder|..];
    IndexGoesFirst(folder, p[|folder|..]);
    assert IndexPath(folder)[|folder|] == '.';
  }

  // ------------------------------------------------------------ what is pushed

  function Desired(folder: string, enc: Encoding, out: Rendered): map<Path, Content> {
    out.files[IndexPath(folder) := enc(out.index)]
  }

  /** The tree holds exactly these notes, and whatever it holds as the index file. */
  ghost predicate HoldsNotes(blob: BlobSha, folder: string, tree: Tree, notes: Notes) {
    forall p :: p != IndexPath(folder) ==> (p in tree <==> p in notes) && (p in tree ==> tree[p] == blob(notes[p]))
  }

  /** The operations of one cycle's push. */
  function Ops(blob: BlobSha, folder: string, enc: Encoding, before: Tree, out: Rendered): seq<Op> {
    var desired := Desired(folder, enc, out);
    Diff(blob, desired, before, Unkept(desired, before, out.keep))
  }

  function Goal(blob: BlobSha, folder: string, enc: Encoding, before: Tree, out: Rendered): Tree {
    var desired := Desired(folder, enc, out);
    Target(blob, desired, before, Unkept(desired, before, out.keep))
  }

  /** A complete push leaves the notes and the index of the cycle. */
  lemma GoalIs(blob: BlobSha, folder: string, enc: Encoding, before: Tree, notes: Notes, out: Rendered)
    requires HoldsNotes(blob, folder, before, notes) && IndexPath(folder) !in out.files && IndexPath(folder) !in notes
    ensures var goal := Goal(blob, folder, enc, before, out);
      && HoldsNotes(blob, folder, goal, After(notes, out))
      && IndexPath(folder) in goal && goal[IndexPath(folder)] == blob(enc(out.index))
  {
  }

  // ------------------------------------------------------------ what an operation says

  /** A write of a wanted path that is missing or different, or a deletion. */
  predicate Justified(blob: BlobSha, desired: map<Path, Content>, before: Tree, drop: set<Path>, o: Op) {
    match o
    case Create(p, c) => p in desired && p !in before
    case Update(p, c, sha) => p in desired && p in before && before[p] != blob(desired[p])
    case Delete(p, sha) => p in drop
  }

  lemma {:induction false} WritesJustified(blob: BlobSha, desired: map<Path, Content>, before: Tree, drop: set<Path>,
                                           paths: seq<Path>, o: Op)
    requires (forall p :: p in paths ==> p in desired) && o in Writes(blob, desired, before, paths)
    ensures Justified(blob, desired, before, drop, o)
  {
    if o in Writes(blob, desired, before, paths[1..]) { WritesJustified(blob, desired, before, drop, paths[1..], o); }
  }

  lemma {:induction false} DeletesJustified(blob: BlobSha, desired: map<Path, Content>, before: Tree, drop: set<Path>,
                                            paths: seq<Path>, o: Op)
    requires (forall p :: p in paths ==> p in before && p in drop) && o in Deletes(before, paths)
    ensures Justified(blob, desired, before, drop, o)
  {
    if o in Deletes(before, paths[1..]) { DeletesJustified(blob, desired, before, drop, paths[1..], o); }
  }

  lemma DiffJustified(blob: BlobSha, desired: map<Path, Content>, before: Tree, drop: set<Path>, o: Op)
    requires drop <= before.Keys && o in Diff(blob, desired, before, drop)
    ensures Justified(blob, desired, before, drop, o)
  {
    var ws, ds := SortedKeys(desired.Keys), SortedKeys(drop);
    if o in Writes(blob, desired, before, ws) {
      WritesJustified(blob, desired, before, drop, ws, o);
    } else {
      DeletesJustified(blob, desired, before, drop, ds, o);
    }
  }

  // ------------------------------------------------------------ the first batch

  lemma LeastKeyFirst(keys: set<Path>, least: Path)
    requires least in keys && forall p :: p in keys ==> Leq(least, p)
    ensures SortedKeys(keys) != [] && SortedKeys(keys)[0] == least
  {
    var s := SortedKeys(keys);
    SortedKeysSorted(keys);
    var i :| 0 <= i < |s| && s[i] == least;
    if i > 0 {
      assert Leq(s[0], s[i]) && s[0] in keys;
      LeqAntisymmetric(s[0], least);
    }
  }

  /** The first operation is in the first batch. */
  lemma FirstOperation(limit: nat, ops: seq<Op>)
    requires ops != []
    ensures Batches(limit, ops) != [] && Batches(limit, ops)[0] != [] && Batches(limit, ops)[0][0] == ops[0]
  {
    BatchesLossless(limit, ops);
    var batches := Batches(limit, ops);
    assert Flatten(batches) == batches[0] + Flatten(batches[1..]);
  }

  /** A changed index is the first operation of the first batch. */
  lemma IndexInFirstBatch(blob: BlobSha, folder: string, enc: Encoding, before: Tree, out: Rendered, limit: nat)
    requires forall p :: p in out.files ==> InFolder(folder, p)
    requires var idx := IndexPath(folder); !(idx in before && before[idx] == blob(enc(out.index)))
    ensures var ops := Ops(blob, folder, enc, before, out);
      && ops != [] && ops[0].path == IndexPath(folder)
      && Batches(limit, ops) != [] && Batches(limit, ops)[0] != [] && Batches(limit, ops)[0][0] == ops[0]
  {
    var desired := Desired(folder, enc, out);
    LeqReflexive(IndexPath(folder));
    forall p | p in desired.Keys ensures Leq(IndexPath(folder), p) {
      if p != IndexPath(folder) { IndexIsLeast(folder, p); }
    }
    LeastKeyFirst(desired.Keys, IndexPath(folder));
    FirstOperation(limit, Ops(blob, folder, enc, before, out));
  }

  // ------------------------------------------------------------ a push that dies

  /** Some operation in these batches is on the path. */
  ghost predicate Touches(batches: seq<seq<Op>>, p: Path) {
    exists o :: o in Flatten(batches) && o.path == p
  }

  /** After `k` batches a path is as before if its operation is still to come, and as wanted otherwise. */
  lemma PushedSoFar(blob: BlobSha, before: Tree, batches: seq<seq<Op>>, k: nat, p: Path)
    requires k <= |batches| && DistinctPaths(Flatten(batches)) && ApplyOps(blob, before, Flatten(batches)).Some?
    ensures ApplyOps(blob, before, Flatten(batches[..k])).Some?
    ensures var tree := ApplyOps(blob, before, Flatten(batches[..k])).value;
      if Touches(batches[k..], p) then SameAt(tree, before, p)
      else SameAt(tree, ApplyOps(blob, before, Flatten(batches)).value, p)
  {
    var a, b := Flatten(batches[..k]), Flatten(batches[k..]);
    assert batches == batches[..k] + batches[k..];
    FlattenConcat(batches[..k], batches[k..]);
    ApplyConcat(blob, before, a, b);
    var tree := ApplyOps(blob, before, a).value;
    if Touches(batches[k..], p) {
      var j :| 0 <= j < |b| && b[j].path == p;
      forall i | 0 <= i < |a| ensures a[i].path != p { assert (a + b)[i] == a[i] && (a + b)[|a| + j] == b[j]; }
      UntouchedStays(blob, before, a, p);
    } else {
      forall i | 0 <= i < |b| ensures b[i].path != p { assert b[i] in b; }
      UntouchedStays(blob, tree, b, p);
    }
  }

  /** An update of a note is still to be pushed. */
  ghost predicate UpdateToCome(folder: string, batches: seq<seq<Op>>, k: nat)
    requires k <= |batches|
  {
    exists o :: o in Flatten(batches[k..]) && o.Update? && o.path != IndexPath(folder)
  }

  /** The notes in the folder after `k` batches. */
  ghost function NotesAfter(before: Notes, after: Notes, rest: seq<seq<Op>>): Notes {
    map p | p in before.Keys + after.Keys && p in (if Touches(rest, p) then before else after) ::
      (if Touches(rest, p) then before else after)[p]
  }

  lemma NotesAfterPartly(before: Notes, after: Notes, rest: seq<seq<Op>>)
    ensures PartlyPushed(before, after, NotesAfter(before, after, rest))
  {
  }

  /** Everything about one push that dies after `k` batches. */
  ghost predicate DyingPush(render: Renderer, f: Folder, recs: seq<Recording>, blob: BlobSha, folder: string, enc: Encoding,
                       before: Tree, limit: nat, k: nat)
  {
    && Listing(recs) && Truthful(render, f.index, f.notes)
    && (forall i :: 0 <= i < |recs| ==> InFolder(folder, recs[i].path))
    && IndexPath(folder) !in f.notes && HoldsNotes(blob, folder, before, f.notes)
    && k <= |CommitsFor(limit, Ops(blob, folder, enc, before, RenderAll(render, f.index, f.notes.Keys, false, recs)))|
  }

  lemma RenderedInFolder(render: Renderer, f: Folder, recs: seq<Recording>, folder: string)
    requires forall i :: 0 <= i < |recs| ==> InFolder(folder, recs[i].path)
    ensures var out := RenderAll(render, f.index, f.notes.Keys, false, recs);
      (forall p :: p in out.files ==> InFolder(folder, p)) && IndexPath(folder) !in out.files
  {
    var out := RenderAll(render, f.index, f.notes.Keys, false, recs);
    RenderAllFrom(render, f.index, f.notes.Keys, false, recs);
    forall p | p in out.files ensures InFolder(folder, p) && p != IndexPath(folder) {
      var i :| 0 <= i < |recs| && recs[i].path == p;
      IndexIsLeast(folder, p);
    }
  }

  /** The tree after `k` batches: the index of the cycle once anything was pushed, and notes each old or new. */
  lemma DeadTree(render: Renderer, f: Folder, recs: seq<Recording>, blob: BlobSha, folder: string, enc: Encoding,
                 before: Tree, limit: nat, k: nat)
    requires DyingPush(render, f, recs, blob, folder, enc, before, limit, k)
    ensures var out := RenderAll(render, f.index, f.notes.Keys, false, recs);
      var batches := CommitsFor(limit, Ops(blob, folder, enc, before, out));
      var tree := ApplyOps(blob, before, Flatten(batches[..k]));
      var mid := NotesAfter(f.notes, After(f.notes, out), batches[k..]);
      && tree.Some? && HoldsNotes(blob, folder, tree.value, mid)
      && (k > 0 ==> IndexPath(folder) in tree.value && tree.value[IndexPath(folder)] == blob(enc(out.index)))
  {
    var out := RenderAll(render, f.index, f.notes.Keys, false, recs);
    var ops := Ops(blob, folder, enc, before, out);
    var desired := Desired(folder, enc, out);
    var drop := Unkept(desired, before, out.keep);
    var batches := CommitsFor(limit, ops);
    var idx := IndexPath(folder);
    RenderedInFolder(render, f, recs, folder);
    DiffReachesTarget(blob, desired, before, drop);
    DiffPaths(blob, desired, before, drop);
    GoalIs(blob, folder, enc, before, f.notes, out);
    CommitsJoin(limit, ops);
    PushedSoFar(blob, before, batches, k, idx);
    var tree := ApplyOps(blob, before, Flatten(batches[..k])).value;
    forall p | p != idx
      ensures var mid := NotesAfter(f.notes, After(f.notes, out), batches[k..]);
        (p in tree <==> p in mid) && (p in tree ==> tree[p] == blob(mid[p]))
    {
      PushedSoFar(blob, before, batches, k, p);
    }
    if k > 0 && Touches(batches[k..], idx) {
      var o: Op :| o in Flatten(batches[k..]) && o.path == idx;
      IndexNotLate(blob, folder, enc, before, out, limit, k, o);
    }
  }

  lemma CommitsJoin(limit: nat, ops: seq<Op>)
    ensures Flatten(CommitsFor(limit, ops)) == ops
  {
    if ops != [] { BatchesLossless(limit, ops); }
  }

  /** No batch but the first has an operation on the index. */
  lemma IndexNotLate(blob: BlobSha, folder: string, enc: Encoding, before: Tree, out: Rendered, limit: nat, k: nat, o: Op)
    requires (forall p :: p in out.files ==> InFolder(folder, p))
    requires var batches := CommitsFor(limit, Ops(blob, folder, enc, before, out));
      0 < k <= |batches| && o in Flatten(batches[k..])
    ensures o.path != IndexPath(folder)
  {
    var ops := Ops(blob, folder, enc, before, out);
    var desired := Desired(folder, enc, out);
    var drop := Unkept(desired, before, out.keep);
    var batches := CommitsFor(limit, ops);
    CommitsJoin(limit, ops);
    assert batches == batches[..k] + batches[k..];
    FlattenConcat(batches[..k], batches[k..]);
    var a, b := Flatten(batches[..k]), Flatten(batches[k..]);
    var j :| 0 <= j < |b| && b[j] == o;
    assert ops[|a| + j] == o && o in ops;
    FirstOperation(limit, ops);
    assert batches[..k][0] == batches[0];
    assert a != [];
    if o.path == IndexPath(folder) {
      DiffJustified(blob, desired, before, drop, o);
      IndexInFirstBatch(blob, folder, enc, before, out, limit);
      DiffPaths(blob, desired, before, drop);
    }
  }

  /** A note whose update is missing has its operation still to come, and it is an update. */
  lemma MissingIsToCome(blob: BlobSha, folder: string, enc: Encoding, before: Tree, notes: Notes, out: Rendered,
                        limit: nat, k: nat)
    requires HoldsNotes(blob, folder, before, notes) && IndexPath(folder) !in notes && IndexPath(folder) !in out.files
    requires k <= |CommitsFor(limit, Ops(blob, folder, enc, before, out))|
    requires var batches := CommitsFor(limit, Ops(blob, folder, enc, before, out));
      UpdateMissing(notes, After(notes, out), NotesAfter(notes, After(notes, out), batches[k..]))
    ensures UpdateToCome(folder, CommitsFor(limit, Ops(blob, folder, enc, before, out)), k)
  {
    var batches := CommitsFor(limit, Ops(blob, folder, enc, before, out));
    var after := After(notes, out);
    var mid := NotesAfter(notes, after, batches[k..]);
    var p :| p in notes && p in mid && p in after && mid[p] != after[p];
    var o: Op :| o in Flatten(batches[k..]) && o.path == p;
    RestJustified(blob, folder, enc, before, out, limit, k, o);
    assert o.Update?;
  }

  lemma RestJustified(blob: BlobSha, folder: string, enc: Encoding, before: Tree, out: Rendered, limit: nat, k: nat, o: Op)
    requires k <= |CommitsFor(limit, Ops(blob, folder, enc, before, out))|
    requires o in Flatten(CommitsFor(limit, Ops(blob, folder, enc, before, out))[k..])
    ensures var desired := Desired(folder, enc, out);
      Justified(blob, desired, before, Unkept(desired, before, out.keep), o)
  {
    var ops := Ops(blob, folder, enc, before, out);
    var desired := Desired(folder, enc, out);
    var batches := CommitsFor(limit, ops);
    CommitsJoin(limit, ops);
    assert batches == batches[..k] + batches[k..];
    FlattenConcat(batches[..k], batches[k..]);
    assert o in ops;
    DiffJustified(blob, desired, before, Unkept(desired, before, out.keep), o);
  }

  /** A note with an update still to come has its old text, which differs from the new one. */
  lemma ToComeIsMissing(blob: BlobSha, folder: string, enc: Encoding, before: Tree, notes: Notes, out: Rendered,
                        limit: nat, k: nat)
    requires HoldsNotes(blob, folder, before, notes)
    requires k <= |CommitsFor(limit, Ops(blob, folder, enc, before, out))|
    requires UpdateToCome(folder, CommitsFor(limit, Ops(blob, folder, enc, before, out)), k)
    ensures var batches := CommitsFor(limit, Ops(blob, folder, enc, before, out));
      UpdateMissing(notes, After(notes, out), NotesAfter(notes, After(notes, out), batches[k..]))
  {
    var batches := CommitsFor(limit, Ops(blob, folder, enc, before, out));
    var o: Op :| o in Flatten(batches[k..]) && o.Update? && o.path != IndexPath(folder);
    RestJustified(blob, folder, enc, before, out, limit, k, o);
    assert Touches(batches[k..], o.path);
    assert NotesAfter(notes, After(notes, out), batches[k..])[o.path] == notes[o.path];
  }

  /**
   * A push that dies after `k` of its commits. If nothing was pushed, the next
   * cycle over the same listing gives a full render. Otherwise the new index is
   * there, and it does so if and only if no later batch updates a note.
   */
  lemma DeadPush(render: Renderer, f: Folder, recs: seq<Recording>, blob: BlobSha, folder: string, enc: Encoding,
                 before: Tree, limit: nat, k: nat)
    requires DyingPush(render, f, recs, blob, folder, enc, before, limit, k)
    ensures var g := RunCycle(render, f, Cycle(recs, false));
      var out := RenderAll(render, f.index, f.notes.Keys, false, recs);
      var batches := CommitsFor(limit, Ops(blob, folder, enc, before, out));
      var left := Folder(if k == 0 then f.index else g.index,
                         if k == 0 then f.notes else NotesAfter(f.notes, g.notes, batches[k..]));
      FullRender(render, recs, RunCycle(render, left, Cycle(recs, false)).notes) <==>
        k == 0 || !UpdateToCome(folder, batches, k)
  {
    var g := RunCycle(render, f, Cycle(recs, false));
    var out := RenderAll(render, f.index, f.notes.Keys, false, recs);
    var batches := CommitsFor(limit, Ops(blob, folder, enc, before, out));
    if k == 0 {
      CycleIsFullRender(render, f.index, f.notes, false, recs);
    } else {
      RenderedInFolder(render, f, recs, folder);
      var mid := NotesAfter(f.notes, g.notes, batches[k..]);
      if UpdateMissing(f.notes, g.notes, mid) { MissingIsToCome(blob, folder, enc, before, f.notes, out, limit, k); }
      if UpdateToCome(folder, batches, k) { ToComeIsMissing(blob, folder, enc, before, f.notes, out, limit, k); }
      NotesAfterPartly(f.notes, g.notes, batches[k..]);
      DeathAfterIndex(render, f, recs, NotesAfter(f.notes, g.notes, batches[k..]));
    }
  }

  /** So a push leaves a stale folder only if it has a commit, after the first, with the update of a note. */
  lemma StaleNeedsLaterCommit(render: Renderer, f: Folder, recs: seq<Recording>, blob: BlobSha, folder: string,
                              enc: Encoding, before: Tree, limit: nat, k: nat) returns (i: nat, o: Op)
    requires DyingPush(render, f, recs, blob, folder, enc, before, limit, k)
    requires var g := RunCycle(render, f, Cycle(recs, false));
      var out := RenderAll(render, f.index, f.notes.Keys, false, recs);
      var batches := CommitsFor(limit, Ops(blob, folder, enc, before, out));
      var left := Folder(if k == 0 then f.index else g.index,
                         if k == 0 then f.notes else NotesAfter(f.notes, g.notes, batches[k..]));
      !FullRender(render, recs, RunCycle(render, left, Cycle(recs, false)).notes)
    ensures var out := RenderAll(render, f.index, f.notes.Keys, false, recs);
      var batches := CommitsFor(limit, Ops(blob, folder, enc, before, out));
      0 < k <= i < |batches| && o in batches[i] && o.Update? && o.path != IndexPath(folder)
  {
    DeadPush(render, f, recs, blob, folder, enc, before, limit, k);
    var out := RenderAll(render, f.index, f.notes.Keys, false, recs);
    var batches := CommitsFor(limit, Ops(blob, folder, enc, before, out));
    o :| o in Flatten(batches[k..]) && o.Update? && o.path != IndexPath(folder);
    var j := BatchOf(batches[k..], o);
    i := k + j;
  }

  lemma {:induction false} BatchOf(batches: seq<seq<Op>>, o: Op) returns (i: nat)
    requires o in Flatten(batches)
    ensures i < |batches| && o in batches[i]
  {
    if o in batches[0] {
      i := 0;
    } else {
      var j := BatchOf(batches[1..], o);
      i := j + 1;
    }
  }

  /** The push itself, dying after at most `budget` commits. */
  method PushFolder(repo: Forgejo, blob: BlobSha, folder: string, enc: Encoding, out: Rendered, limit: nat, budget: nat)
    returns (pushed: nat)
    modifies repo
    ensures var batches := CommitsFor(limit, Ops(blob, folder, enc, old(repo.tree), out));
      && pushed == (if budget < |batches| then budget else |batches|)
      && Some(repo.tree) == ApplyOps(blob, old(repo.tree), Flatten(batches[..pushed]))
      && repo.commits == old(repo.commits) + batches[..pushed]
  {
    var existing := repo.tree;
    var desired := Desired(folder, enc, out);
    var drop := Unkept(desired, existing, out.keep);
    var ops := DiffLoop(blob, desired, existing, drop);
    DiffReachesTarget(blob, desired, existing, drop);
    var batches := [];
    if ops != [] { batches := PackLoop(limit, ops); }
    CommitsJoin(limit, ops);
    pushed := Commits.Push(repo, blob, batches, budget);
  }

  // ------------------------------------------------------------ an example

  function Text(n: nat): (t: string)
    ensures |t| == n
  {
    seq(n, _ => 'b')
  }

  /** A recording whose note is short under signature "a" and `n` characters long under "b". */
  function Growing(n: nat): Renderer {
    (id, sig) => Some(if sig == "b" then Text(n) else "a")
  }

  const NOTE: Path := "Riffado/note.md"
  const FOLDER := "Riffado/"
  const KNOWN: Folder := Folder(map["r" := Entry(NOTE, "a")], map[NOTE := "a"])
  const LISTED := [Recording("r", "b", NOTE)]
  const NEWER: Index := map["r" := Entry(NOTE, "b")]

  lemma GrownCycle(n: nat)
    ensures RenderAll(Growing(n), KNOWN.index, KNOWN.notes.Keys, false, LISTED)
         == Rendered(map[NOTE := Text(n)], {}, NEWER)
    ensures Listing(LISTED) && Truthful(Growing(n), KNOWN.index, KNOWN.notes)
    ensures InFolder(FOLDER, NOTE) && IndexPath(FOLDER) != NOTE
  {
    assert LISTED[..0] == [];
    assert FOLDER == NOTE[..8];
    IndexIsLeast(FOLDER, NOTE);
  }

  lemma KeysAfterFirst(keys: set<Path>, least: Path)
    requires least in keys && forall p :: p in keys ==> Leq(least, p)
    ensures SortedKeys(keys) == [least] + SortedKeys(keys - {least})
  {
    LeastKeyFirst(keys, least);
    LeastExists(keys);
    LeastUnique(keys);
    var x :| IsLeast(x, keys);
    assert SortedKeys(keys) == [x] + SortedKeys(keys - {x});
  }

  lemma TwoKeys(a: Path, b: Path)
    requires a != b && Leq(a, b)
    ensures SortedKeys({a, b}) == [a, b]
  {
    LeqReflexive(a);
    LeqReflexive(b);
    KeysAfterFirst({a, b}, a);
    assert {a, b} - {a} == {b};
    KeysAfterFirst({b}, b);
    assert {b} - {b} == {};
  }

  /** Two operations that do not fit one commit. */
  lemma TwoBatches(limit: nat, a: Op, b: Op)
    requires Size(a) > 0 && Size(b) >= limit
    ensures Batches(limit, [a, b]) == [[a], [b]]
  {
    assert [a, b][1..] == [b] && [b][1..] == [] && [] + [a] == [a];
    assert [a][..0] == [];
    assert Weight([a]) == Size(a);
    assert Pack(limit, [a], [b]) == [[a]] + Pack(limit, [b], []);
  }

  function Start(blob: BlobSha, enc: Encoding): Tree {
    map[IndexPath(FOLDER) := blob(enc(KNOWN.index)), NOTE := blob("a")]
  }

  lemma TwoWrites(blob: BlobSha, desired: map<Path, Content>, before: Tree, a: Path, b: Path)
    requires a in desired && b in desired && a in before && b in before
    requires before[a] != blob(desired[a]) && before[b] != blob(desired[b])
    ensures Writes(blob, desired, before, [a, b])
         == [Update(a, desired[a], before[a]), Update(b, desired[b], before[b])]
  {
    assert [a, b][1..] == [b] && [b][1..] == [];
    assert Writes(blob, desired, before, [b]) == [Update(b, desired[b], before[b])] + Writes(blob, desired, before, []);
  }

  lemma GrownOps(blob: BlobSha, enc: Encoding, n: nat)
    requires blob(enc(KNOWN.index)) != blob(enc(NEWER)) && blob("a") != blob(Text(n))
    ensures Ops(blob, FOLDER, enc, Start(blob, enc), Rendered(map[NOTE := Text(n)], {}, NEWER))
         == [Update(IndexPath(FOLDER), enc(NEWER), blob(enc(KNOWN.index))), Update(NOTE, Text(n), blob("a"))]
  {
    GrownCycle(n);
    var out := Rendered(map[NOTE := Text(n)], {}, NEWER);
    TwoOps(blob, enc, IndexPath(FOLDER), NOTE, Start(blob, enc), out);
  }

  lemma TwoOps(blob: BlobSha, enc: Encoding, idx: Path, note: Path, before: Tree, out: Rendered)
    requires idx == IndexPath(FOLDER) && idx != note && InFolder(FOLDER, note)
    requires before.Keys == {idx, note} && out.files.Keys == {note}
    requires before[idx] != blob(enc(out.index)) && before[note] != blob(out.files[note])
    ensures Ops(blob, FOLDER, enc, before, out)
         == [Update(idx, enc(out.index), before[idx]), Update(note, out.files[note], before[note])]
  {
    var desired := Desired(FOLDER, enc, out);
    IndexIsLeast(FOLDER, note);
    assert desired.Keys == {idx, note};
    TwoKeys(idx, note);
    TwoWrites(blob, desired, before, idx, note);
    assert Unkept(desired, before, out.keep) == {};
    assert Deletes(before, SortedKeys({})) == [];
  }

  /**
   * An instance, for any commit limit: the new note fills a commit of its own,
   * the push dies after the one with the index, and the next cycle leaves the
   * old note.
   */
  lemma StaleNote(blob: BlobSha, enc: Encoding, limit: nat)
    requires enc(NEWER) != "" && blob(enc(KNOWN.index)) != blob(enc(NEWER))
    requires blob("a") != blob(Text(limit)) && limit > 0
    ensures DyingPush(Growing(limit), KNOWN, LISTED, blob, FOLDER, enc, Start(blob, enc), limit, 1)
    ensures var render := Growing(limit);
      var g := RunCycle(render, KNOWN, Cycle(LISTED, false));
      var batches := CommitsFor(limit, Ops(blob, FOLDER, enc, Start(blob, enc), RenderAll(render, KNOWN.index, KNOWN.notes.Keys, false, LISTED)));
      && |batches| == 2
      && !FullRender(render, LISTED,
           RunCycle(render, Folder(g.index, NotesAfter(KNOWN.notes, g.notes, batches[1..])), Cycle(LISTED, false)).notes)
  {
    var render, text := Growing(limit), Text(limit);
    GrownCycle(limit);
    GrownOps(blob, enc, limit);
    var a, b := Update(IndexPath(FOLDER), enc(NEWER), blob(enc(KNOWN.index))), Update(NOTE, text, blob("a"));
    TwoBatches(limit, a, b);
    var out := RenderAll(render, KNOWN.index, KNOWN.notes.Keys, false, LISTED);
    var batches := CommitsFor(limit, Ops(blob, FOLDER, enc, Start(blob, enc), out));
    assert batches == [[a], [b]];
    assert DyingPush(render, KNOWN, LISTED, blob, FOLDER, enc, Start(blob, enc), limit, 1);
    assert batches[1..] == [[b]] && [[b]][1..] == [] && Flatten([[b]]) == [b];
    assert b in Flatten(batches[1..]);
    assert UpdateToCome(FOLDER, batches, 1);
    DeadPush(render, KNOWN, LISTED, blob, FOLDER, enc, Start(blob, enc), limit, 1);
  }
}
