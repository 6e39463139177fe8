// The Riffado cache: recordings whose list signature and path did not change
// keep their note without being fetched again. The cache lives in an index file
// that is pushed together with the notes it describes.

module Riffado {
  import opened Common
  import opened Reconciler
  import P = PathAssignment

  /** A listed recording; `sig` is its list signature with those of the routes and corrections. */
  datatype Recording = Recording(id: string, sig: string, path: Path)

  datatype Entry = Entry(path: Path, sig: string)

  type Index = map<string, Entry>
  type Notes = map<Path, Content>

  /** Fetching and rendering a recording: determined by its id and signature, None if it has no details. */
  type Renderer = (string, string) -> Option<Content>

  datatype Rendered = Rendered(files: Notes, keep: set<Path>, index: Index)

  /** The note is taken to be up to date. */
  predicate Unchanged(index: Index, existing: set<Path>, full: bool, r: Recording) {
    !full && r.id in index && index[r.id] == Entry(r.path, r.sig) && r.path in existing
  }

  function RenderOne(render: Renderer, index: Index, existing: set<Path>, full: bool, so: Rendered, r: Recording): Rendered {
    var entries := so.index[r.id := Entry(r.path, r.sig)];
    if Unchanged(index, existing, full, r) then so.(keep := so.keep + {r.path}, index := entries)
    else match render(r.id, r.sig)
      case None => so
      case Some(text) => so.(files := so.files[r.path := text], index := entries)
  }

  /** `render_riffado` over the listed recordings. */
  function RenderAll(render: Renderer, index: Index, existing: set<Path>, full: bool, recs: seq<Recording>): Rendered {
    if recs == [] then Rendered(map[], {}, map[])
    else
      var n := |recs| - 1;
      RenderOne(render, index, existing, full, RenderAll(render, index, existing, full, recs[..n]), recs[n])
  }

  method RenderLoop(render: Renderer, index: Index, existing: set<Path>, full: bool, recs: seq<Recording>)
    returns (out: Rendered)
    ensures out == RenderAll(render, index, existing, full, recs)
  {
    var files: Notes, keep: set<Path>, newIndex: Index := map[], {}, map[];
    for i := 0 to |recs|
      invariant Rendered(files, keep, newIndex) == RenderAll(render, index, existing, full, recs[..i])
    {
      var r := recs[i];
      assert recs[..i + 1][..i] == recs[..i];
      if Unchanged(index, existing, full, r) {
        keep := keep + {r.path};
      } else {
        var text := render(r.id, r.sig);
        if text.None? { continue; }
        files := files[r.path := text.value];
      }
      newIndex := newIndex[r.id := Entry(r.path, r.sig)];
    }
    assert recs[..|recs|] == recs;
    return Rendered(files, keep, newIndex);
  }

  /** Ids are unique, and so are the paths assigned to them. */
  ghost predicate Listing(recs: seq<Recording>) {
    forall i, j :: 0 <= i < j < |recs| ==> recs[i].id != recs[j].id && recs[i].path != recs[j].path
  }

  /** The notes after the push: what was rendered, and what was kept. */
  function After(notes: Notes, out: Rendered): Notes {
    map p | p in out.files.Keys + (notes.Keys * out.keep) :: if p in out.files then out.files[p] else notes[p]
  }

  /** One full render of everything listed. */
  ghost predicate FullRender(render: Renderer, recs: seq<Recording>, notes: Notes) {
    && (forall i :: 0 <= i < |recs| ==>
          var text := render(recs[i].id, recs[i].sig);
          (recs[i].path in notes <==> text.Some?) && (text.Some? ==> notes[recs[i].path] == text.value))
    && (forall p :: p in notes ==> exists i :: 0 <= i < |recs| && recs[i].path == p)
  }

  /** Every note the index claims to know is the rendering of what the index says it is. */
  ghost predicate Truthful(render: Renderer, index: Index, notes: Notes) {
    forall id :: id in index && index[id].path in notes ==> render(id, index[id].sig) == Some(notes[index[id].path])
  }

  // ------------------------------------------------------------ what a cycle computes

  /** The note is there, and recorded at this path with this signature; a full cycle trusts nothing. */
  ghost predicate Cached(index: Index, existing: set<Path>, full: bool, r: Recording) {
    !full && r.path in existing && r.id in index && index[r.id].path == r.path && index[r.id].sig == r.sig
  }

  ghost predicate Handled(render: Renderer, index: Index, existing: set<Path>, full: bool, out: Rendered, r: Recording) {
    var text := render(r.id, r.sig);
    if Cached(index, existing, full, r) then
      r.path in out.keep && r.path !in out.files && r.id in out.index && out.index[r.id] == Entry(r.path, r.sig)
    else if text.None? then r.path !in out.keep && r.path !in out.files && r.id !in out.index
    else r.path in out.files && out.files[r.path] == text.value &&
         r.path !in out.keep && r.id in out.index && out.index[r.id] == Entry(r.path, r.sig)
  }

  /** Handling one more recording does not disturb another. */
  lemma HandledStays(render: Renderer, index: Index, existing: set<Path>, full: bool, so: Rendered, r: Recording, next: Recording)
    requires Handled(render, index, existing, full, so, r)
    requires r.id != next.id && r.path != next.path
    ensures Handled(render, index, existing, full, RenderOne(render, index, existing, full, so, next), r)
  {
  }

  ghost predicate From(recs: seq<Recording>, out: Rendered) {
    && (forall p :: p in out.files || p in out.keep ==> exists i :: 0 <= i < |recs| && recs[i].path == p)
    && (forall id :: id in out.index ==> exists i :: 0 <= i < |recs| && recs[i].id == id)
  }

  /** Nothing but listed recordings is rendered, kept or indexed. */
  lemma {:induction false} RenderAllFrom(render: Renderer, index: Index, existing: set<Path>, full: bool, recs: seq<Recording>)
    ensures From(recs, RenderAll(render, index, existing, full, recs))
  {
    if recs != [] {
      var n := |recs| - 1;
      RenderAllFrom(render, index, existing, full, recs[..n]);
      var out := RenderAll(render, index, existing, full, recs);
      forall p | (p in out.files || p in out.keep) && p != recs[n].path
        ensures exists i :: 0 <= i < |recs| && recs[i].path == p
      {
        var i :| 0 <= i < n && recs[..n][i].path == p;
        assert recs[i].path == p;
      }
      forall id | id in out.index && id != recs[n].id ensures exists i :: 0 <= i < |recs| && recs[i].id == id {
        var i :| 0 <= i < n && recs[..n][i].id == id;
        assert recs[i].id == id;
      }
    }
  }

  /** What a cycle does with each listed recording. */
  lemma {:induction false} EachHandled(render: Renderer, index: Index, existing: set<Path>, full: bool, recs: seq<Recording>, i: nat)
    requires Listing(recs) && i < |recs|
    ensures Handled(render, index, existing, full, RenderAll(render, index, existing, full, recs), recs[i])
  {
    var n := |recs| - 1;
    var before := recs[..n];
    if i < n {
      EachHandled(render, index, existing, full, before, i);
      HandledStays(render, index, existing, full, RenderAll(render, index, existing, full, before), recs[i], recs[n]);
    } else {
      NewlyHandled(render, index, existing, full, before, recs[n]);
    }
  }

  lemma NewlyHandled(render: Renderer, index: Index, existing: set<Path>, full: bool, before: seq<Recording>, r: Recording)
    requires forall i :: 0 <= i < |before| ==> before[i].id != r.id && before[i].path != r.path
    ensures Handled(render, index, existing, full,
                    RenderOne(render, index, existing, full, RenderAll(render, index, existing, full, before), r), r)
  {
    RenderAllFrom(render, index, existing, full, before);
  }

  // ------------------------------------------------------------ cache correctness

  /** One cycle from a truthful index leaves a full render and a truthful index. */
  lemma CycleIsFullRender(render: Renderer, index: Index, notes: Notes, full: bool, recs: seq<Recording>)
    requires Listing(recs) && (full || Truthful(render, index, notes))
    ensures var out := RenderAll(render, index, notes.Keys, full, recs);
            FullRender(render, recs, After(notes, out)) && Truthful(render, out.index, After(notes, out))
  {
    var out := RenderAll(render, index, notes.Keys, full, recs);
    var after := After(notes, out);
    RenderAllFrom(render, index, notes.Keys, full, recs);
    forall i | 0 <= i < |recs|
      ensures var text := render(recs[i].id, recs[i].sig);
              (recs[i].path in after <==> text.Some?) && (text.Some? ==> after[recs[i].path] == text.value)
    {
      EachHandled(render, index, notes.Keys, full, recs, i);
    }
    forall id | id in out.index && out.index[id].path in after
      ensures render(id, out.index[id].sig) == Some(after[out.index[id].path])
    {
      var i :| 0 <= i < |recs| && recs[i].id == id;
      EachHandled(render, index, notes.Keys, full, recs, i);
    }
  }

  /** One cycle of `sync_riffado`: what was listed, and whether everything was rendered anew. */
  datatype Cycle = Cycle(recs: seq<Recording>, full: bool)

  datatype Folder = Folder(index: Index, notes: Notes)

  function RunCycle(render: Renderer, f: Folder, c: Cycle): Folder {
    var out := RenderAll(render, f.index, f.notes.Keys, c.full, c.recs);
    Folder(out.index, After(f.notes, out))
  }

  function RunCycles(render: Renderer, f: Folder, cycles: seq<Cycle>): Folder {
    if cycles == [] then f
    else RunCycle(render, RunCycles(render, f, cycles[..|cycles| - 1]), cycles[|cycles| - 1])
  }

  /** After any sequence of cycles the folder is what a full render of the last listing gives. */
  lemma {:induction false} CachedEqualsFull(render: Renderer, f: Folder, cycles: seq<Cycle>)
    requires forall i :: 0 <= i < |cycles| ==> Listing(cycles[i].recs)
    requires Truthful(render, f.index, f.notes)
    ensures var g := RunCycles(render, f, cycles);
            && Truthful(render, g.index, g.notes)
            && (cycles != [] ==> FullRender(render, cycles[|cycles| - 1].recs, g.notes))
  {
    if cycles != [] {
      var n := |cycles| - 1;
      CachedEqualsFull(render, f, cycles[..n]);
      var g := RunCycles(render, f, cycles[..n]);
      CycleIsFullRender(render, g.index, g.notes, cycles[n].full, cycles[n].recs);
    }
  }

  /** Two folders that are full renders of the same listing have the same notes. */
  lemma FullRenderUnique(render: Renderer, recs: seq<Recording>, a: Notes, b: Notes)
    requires FullRender(render, recs, a) && FullRender(render, recs, b)
    ensures a == b
  {
    forall p ensures (p in a <==> p in b) && (p in a ==> a[p] == b[p]) {
      if p in a { var i :| 0 <= i < |recs| && recs[i].path == p; }
      if p in b { var i :| 0 <= i < |recs| && recs[i].path == p; }
    }
  }

  // ------------------------------------------------------------ dying between commits

  /** The index file sorts before every note of its folder, so it is in the first commit. */
  lemma IndexGoesFirst(folder: string, name: string)
    requires name != "" && name[0] > '.'
    ensures Leq(folder + ".index.json", folder + name)
  {
    SamePrefix(folder, ".index.json", name);
  }

  lemma {:induction false} SamePrefix(prefix: string, a: string, b: string)
    requires Leq(a, b)
    ensures Leq(prefix + a, prefix + b)
  {
    if prefix == "" {
      assert prefix + a == a && prefix + b == b;
    } else {
      assert (prefix + a)[1..] == prefix[1..] + a && (prefix + b)[1..] == prefix[1..] + b;
      SamePrefix(prefix[1..], a, b);
    }
  }

  /** Every note is as before the push or as after it. */
  ghost predicate PartlyPushed(before: Notes, after: Notes, mid: Notes) {
    forall p :: || ((p in mid <==> p in before) && (p in mid ==> mid[p] == before[p]))
                || ((p in mid <==> p in after) && (p in mid ==> mid[p] == after[p]))
  }

  /** Some note that was there and should have been rewritten still has its old text. */
  ghost predicate UpdateMissing(notes: Notes, after: Notes, mid: Notes) {
    exists p :: p in notes && p in mid && p in after && mid[p] != after[p]
  }

  /**
   * A push that dies after the index was committed: the next cycle over the same
   * listing gives a full render exactly if no update is missing. Missing
   * creations and deletions are made up for.
   */
  lemma DeathAfterIndex(render: Renderer, f: Folder, recs: seq<Recording>, mid: Notes)
    requires Listing(recs) && Truthful(render, f.index, f.notes)
    requires var g := RunCycle(render, f, Cycle(recs, false)); PartlyPushed(f.notes, g.notes, mid)
    ensures var g := RunCycle(render, f, Cycle(recs, false));
            FullRender(render, recs, RunCycle(render, Folder(g.index, mid), Cycle(recs, false)).notes)
            <==> !UpdateMissing(f.notes, g.notes, mid)
  {
    var g := RunCycle(render, f, Cycle(recs, false));
    var again := RunCycle(render, Folder(g.index, mid), Cycle(recs, false));
    CycleIsFullRender(render, f.index, f.notes, false, recs);
    RenderAllFrom(render, f.index, f.notes.Keys, false, recs);
    if UpdateMissing(f.notes, g.notes, mid) {
      var p :| p in f.notes && p in mid && p in g.notes && mid[p] != g.notes[p];
      var i :| 0 <= i < |recs| && recs[i].path == p;
      EachHandled(render, f.index, f.notes.Keys, false, recs, i);
      EachHandled(render, g.index, mid.Keys, false, recs, i);
      assert again.notes[p] == mid[p];
    } else {
      forall id | id in g.index && g.index[id].path in mid
        ensures render(id, g.index[id].sig) == Some(mid[g.index[id].path])
      {
        var i :| 0 <= i < |recs| && recs[i].id == id;
        EachHandled(render, f.index, f.notes.Keys, false, recs, i);
        var p := recs[i].path;
        assert p in g.notes;
        assert mid[p] == g.notes[p];
      }
      CycleIsFullRender(render, g.index, mid, false, recs);
    }
  }

  /** A full cycle repairs the folder whatever state it is in. */
  lemma FullCycleRepairs(render: Renderer, f: Folder, recs: seq<Recording>)
    requires Listing(recs)
    ensures FullRender(render, recs, RunCycle(render, f, Cycle(recs, true)).notes)
  {
    CycleIsFullRender(render, f.index, f.notes, true, recs);
  }

  // ------------------------------------------------------------ the listing's paths

  /** Recordings with the paths that path assignment gives them are a proper listing, unless two of them clash. */
  lemma AssignedListing(fc: P.Folding, items: seq<P.Item>, folder: string, paths: map<string, string>, recs: seq<Recording>)
    requires P.UniqueKeys(items) && P.PlainPunctuation(fc) && P.NoClash(fc, items)
    requires forall it :: it in items ==> '(' !in P.Fold(fc, P.Prefix8(it.key)) && P.Assigned(fc, items, folder, paths, it)
    requires |recs| == |items| && forall i :: 0 <= i < |recs| ==>
      recs[i].id == items[i].key && recs[i].id in paths && recs[i].path == paths[recs[i].id]
    ensures Listing(recs)
  {
    forall i, j | 0 <= i < j < |recs| ensures recs[i].id != recs[j].id && recs[i].path != recs[j].path {
      assert items[i] in items && items[j] in items && items[i].key != items[j].key;
      P.PathsDiffer(fc, items, folder, paths, items[i], items[j]);
    }
  }
}
