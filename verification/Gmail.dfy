// The Gmail index under a call budget: which threads match, which notes are
// kept, rendered or deferred, and the index that records them.

module Gmail {
  import opened Common
  import opened Reconciler
  import P = PathAssignment

  type Tid = string

  /** What is known about a thread; `stale` marks an entry taken over from the index. */
  datatype Meta = Meta(hid: string, people: string, labels: string, subject: string, first: nat, stale: bool)

  datatype Entry = Entry(path: Path, hid: string, people: string, subject: string, first: nat, links: string, version: string)

  type Index = map<Tid, Entry>

  datatype Listed = Listed(tid: Tid, hid: string)

  /**
   * What the run sees of the outside: the two kinds of threads.get (None for no
   * answer, or a thread without live messages), the matching rules, the link
   * signature, whether a thread is older than the window, rendering, and the
   * path assignment.
   */
  datatype World = World(
    metadata: Tid -> Option<Meta>,
    full: Tid -> Option<Meta>,
    matches: (string, string) -> bool,
    links: string -> string,
    agedOut: nat -> bool,
    render: Tid -> Content,
    assign: (seq<Tid>, map<Tid, Meta>) -> map<Tid, Path>,
    version: string)

  /** A meta taken from an index entry. */
  function Stored(e: Entry, hid: string, stale: bool): Meta {
    Meta(hid, e.people, "", e.subject, e.first, stale)
  }

  datatype Result = Result(files: map<Path, Content>, keep: set<Path>, index: Index, calls: nat)

  // ------------------------------------------------------------ phase 1, as a function

  /** The state of the matching loop; `tids` is the order in which threads were matched. */
  datatype Look = Look(matched: map<Tid, Meta>, tids: seq<Tid>, budget: int, checked: nat, cache: map<Tid, Meta>)

  function Match(s: Look, tid: Tid, m: Meta): Look {
    s.(matched := s.matched[tid := m], tids := if tid in s.matched then s.tids else s.tids + [tid])
  }

  /** Metadata that is still current: remembered, or in the index, at the listed history id. */
  function Known(index: Index, cache: map<Tid, Meta>, l: Listed): Option<Meta> {
    if l.tid in cache && cache[l.tid].hid == l.hid then Some(cache[l.tid])
    else if l.tid in index && index[l.tid].hid == l.hid then Some(Stored(index[l.tid], l.hid, false))
    else None
  }

  /** One listed thread. */
  function LookAt(w: World, index: Index, s: Look, l: Listed): Look {
    match Known(index, s.cache, l)
    case Some(m) => if w.matches(m.people, m.labels) then Match(s, l.tid, m) else s
    case None =>
      if s.budget <= 0 then
        if l.tid in index then Match(s, l.tid, Stored(index[l.tid], index[l.tid].hid, true)) else s
      else
        var called := s.(budget := s.budget - 1, checked := s.checked + 1);
        match w.metadata(l.tid)
        case None => called
        case Some(m) =>
          var noted := called.(cache := called.cache[l.tid := m]);
          if w.matches(m.people, m.labels) then Match(noted, l.tid, m) else noted
  }

  function LookAll(w: World, index: Index, listed: seq<Listed>, start: Look): Look {
    if listed == [] then start
    else LookAt(w, index, LookAll(w, index, listed[..|listed| - 1], start), listed[|listed| - 1])
  }

  function Ids(listed: seq<Listed>): set<Tid> {
    set l | l in listed :: l.tid
  }

  /** One index entry: kept if it only fell out of the window and still matches. */
  function LookAged(w: World, index: Index, listed: set<Tid>, s: Look, t: Tid): Look
    requires t in index
  {
    if t !in listed && w.agedOut(index[t].first) && w.matches(index[t].people, "")
    then Match(s, t, Stored(index[t], index[t].hid, true)) else s
  }

  function LookAllAged(w: World, index: Index, listed: set<Tid>, aged: seq<Tid>, start: Look): Look
    requires forall t :: t in aged ==> t in index
  {
    if aged == [] then start
    else LookAged(w, index, listed, LookAllAged(w, index, listed, aged[..|aged| - 1], start), aged[|aged| - 1])
  }

  /** Which threads match, with at most two thirds of the calls; `aged` is the index in its own order. */
  function Matching(w: World, index: Index, listed: seq<Listed>, aged: seq<Tid>, maxFetch: nat, cache: map<Tid, Meta>): Look
    requires forall t :: t in aged ==> t in index
  {
    LookAllAged(w, index, Ids(listed), aged,
                LookAll(w, index, listed, Look(map[], [], maxFetch * 2 / 3, 0, cache)))
  }

  /** The matched threads are listed once each, and the calls are counted. */
  ghost predicate Sound(s: Look, limit: nat) {
    && Distinct(s.tids) && (forall t :: t in s.tids <==> t in s.matched)
    && s.budget >= 0 && s.checked + s.budget == limit
  }

  lemma MatchSound(s: Look, tid: Tid, m: Meta, limit: nat)
    requires Sound(s, limit)
    ensures Sound(Match(s, tid, m), limit)
  {
  }

  /** One listed thread: at most one call, and no match is taken back. */
  lemma LookAtStep(w: World, index: Index, s: Look, l: Listed, limit: nat)
    requires Sound(s, limit)
    ensures Sound(LookAt(w, index, s, l), limit)
  {
    if Known(index, s.cache, l).Some? {
      MatchSound(s, l.tid, Known(index, s.cache, l).value, limit);
    } else if s.budget <= 0 {
      if l.tid in index { MatchSound(s, l.tid, Stored(index[l.tid], index[l.tid].hid, true), limit); }
    } else if w.metadata(l.tid).Some? {
      var m := w.metadata(l.tid).value;
      var noted := s.(budget := s.budget - 1, checked := s.checked + 1, cache := s.cache[l.tid := m]);
      assert Sound(noted, limit);
      MatchSound(noted, l.tid, m, limit);
    }
  }

  /** What one listed thread does to the others. */
  lemma LookAtOthers(w: World, index: Index, s: Look, l: Listed, t: Tid)
    ensures var r := LookAt(w, index, s, l);
      && (t in s.matched ==> t in r.matched)
      && (t != l.tid ==> (t in r.matched <==> t in s.matched) && (t in s.matched ==> r.matched[t] == s.matched[t]))
      && (t != l.tid ==> (t in r.cache <==> t in s.cache) && (t in s.cache ==> r.cache[t] == s.cache[t]))
  {
  }

  /** What one listed thread comes to. */
  lemma LookAtSelf(w: World, index: Index, s: Look, l: Listed)
    ensures var r := LookAt(w, index, s, l);
      && (l.tid in index ==> l.tid in r.matched || Rejected(w, index, s.cache, l))
      && (l.tid in r.matched ==>
            Justified(w, index, l.tid, r.matched[l.tid]) || (l.tid in s.matched && r.matched[l.tid] == s.matched[l.tid]))
  {
  }

  lemma {:induction false} LookAllSound(w: World, index: Index, listed: seq<Listed>, start: Look, limit: nat)
    requires Sound(start, limit)
    ensures Sound(LookAll(w, index, listed, start), limit)
  {
    if listed != [] {
      var n := |listed| - 1;
      LookAllSound(w, index, listed[..n], start, limit);
      LookAtStep(w, index, LookAll(w, index, listed[..n], start), listed[n], limit);
    }
  }

  lemma {:induction false} LookAllAgedSound(w: World, index: Index, listed: set<Tid>, aged: seq<Tid>, start: Look, limit: nat)
    requires Sound(start, limit) && forall t :: t in aged ==> t in index
    ensures var s := LookAllAged(w, index, listed, aged, start);
      Sound(s, limit) && s.checked == start.checked && s.cache == start.cache
  {
    if aged != [] {
      var n := |aged| - 1;
      LookAllAgedSound(w, index, listed, aged[..n], start, limit);
      MatchSound(LookAllAged(w, index, listed, aged[..n], start), aged[n],
                 Stored(index[aged[n]], index[aged[n]].hid, true), limit);
    }
  }

  /** At most two thirds of the calls are spent on matching. */
  lemma MatchingSound(w: World, index: Index, listed: seq<Listed>, aged: seq<Tid>, maxFetch: nat, cache: map<Tid, Meta>)
    requires forall t :: t in aged ==> t in index
    ensures var s := Matching(w, index, listed, aged, maxFetch, cache);
      Sound(s, maxFetch * 2 / 3) && s.checked <= maxFetch * 2 / 3
  {
    var start := Look(map[], [], maxFetch * 2 / 3, 0, cache);
    LookAllSound(w, index, listed, start, maxFetch * 2 / 3);
    LookAllAgedSound(w, index, Ids(listed), aged, LookAll(w, index, listed, start), maxFetch * 2 / 3);
  }

  /** A thread is matched by the rules, or carried over from the index untouched. */
  ghost predicate Justified(w: World, index: Index, t: Tid, m: Meta) {
    w.matches(m.people, m.labels) || (t in index && m == Stored(index[t], index[t].hid, true))
  }

  lemma {:induction false} LookAllJustified(w: World, index: Index, listed: seq<Listed>, start: Look, t: Tid)
    requires t in start.matched ==> Justified(w, index, t, start.matched[t])
    requires t in LookAll(w, index, listed, start).matched
    ensures Justified(w, index, t, LookAll(w, index, listed, start).matched[t])
  {
    if listed != [] {
      var before, l := listed[..|listed| - 1], listed[|listed| - 1];
      if t in LookAll(w, index, before, start).matched { LookAllJustified(w, index, before, start, t); }
      LookAtOthers(w, index, LookAll(w, index, before, start), l, t);
      LookAtSelf(w, index, LookAll(w, index, before, start), l);
    }
  }

  /** The rules, applied to what is known or fetched, turn the thread down. */
  ghost predicate Rejected(w: World, index: Index, cache: map<Tid, Meta>, l: Listed) {
    match Known(index, cache, l)
    case Some(m) => !w.matches(m.people, m.labels)
    case None => w.metadata(l.tid).None? || !w.matches(w.metadata(l.tid).value.people, w.metadata(l.tid).value.labels)
  }

  ghost predicate DistinctIds(listed: seq<Listed>) {
    forall i, j :: 0 <= i < j < |listed| ==> listed[i].tid != listed[j].tid
  }

  lemma {:induction false} CacheUntouched(w: World, index: Index, listed: seq<Listed>, start: Look, t: Tid)
    requires t !in Ids(listed)
    ensures var s := LookAll(w, index, listed, start);
      (t in s.cache <==> t in start.cache) && (t in s.cache ==> s.cache[t] == start.cache[t])
  {
    if listed != [] {
      var n := |listed| - 1;
      assert listed[n] in listed;
      assert forall l :: l in listed[..n] ==> l in listed;
      CacheUntouched(w, index, listed[..n], start, t);
      LookAtOthers(w, index, LookAll(w, index, listed[..n], start), listed[n], t);
    }
  }

  /** A listed thread of the index is matched unless the rules turn it down: never lost to lack of budget. */
  lemma {:induction false} NotLostToBudget(w: World, index: Index, listed: seq<Listed>, start: Look, i: nat)
    requires DistinctIds(listed) && i < |listed| && listed[i].tid in index
    ensures listed[i].tid in LookAll(w, index, listed, start).matched || Rejected(w, index, start.cache, listed[i])
  {
    var n := |listed| - 1;
    var before := LookAll(w, index, listed[..n], start);
    if i < n {
      assert listed[..n][i] == listed[i];
      NotLostToBudget(w, index, listed[..n], start, i);
      LookAtOthers(w, index, before, listed[n], listed[i].tid);
    } else {
      LastNotLost(w, index, listed, start);
    }
  }

  lemma LastNotLost(w: World, index: Index, listed: seq<Listed>, start: Look)
    requires listed != [] && DistinctIds(listed) && listed[|listed| - 1].tid in index
    ensures var l := listed[|listed| - 1];
      l.tid in LookAll(w, index, listed, start).matched || Rejected(w, index, start.cache, l)
  {
    var n := |listed| - 1;
    EarlierIds(listed);
    CacheUntouched(w, index, listed[..n], start, listed[n].tid);
    LookAtSelf(w, index, LookAll(w, index, listed[..n], start), listed[n]);
  }

  lemma EarlierIds(listed: seq<Listed>)
    requires listed != [] && DistinctIds(listed)
    ensures listed[|listed| - 1].tid !in Ids(listed[..|listed| - 1])
  {
    var n := |listed| - 1;
    forall l | l in listed[..n] ensures l.tid != listed[n].tid {
      var j :| 0 <= j < n && listed[..n][j] == l;
      assert listed[j] == l;
    }
  }

  // ------------------------------------------------------------ phase 2, as a function

  datatype Progress = Progress(files: map<Path, Content>, keep: set<Path>, index: Index, budget: int, calls: nat, cache: map<Tid, Meta>)

  function NewEntry(w: World, path: Path, m: Meta): Entry {
    Entry(path, m.hid, m.people, m.subject, m.first, w.links(m.people), w.version)
  }

  /** The note on disk is the one this thread should have. */
  predicate UpToDate(w: World, index: Index, existing: set<Path>, tid: Tid, m: Meta, path: Path) {
    && tid in index && path in existing && index[tid].path == path
    && (|| (index[tid].hid == m.hid && index[tid].links == w.links(m.people) && index[tid].version == w.version)
        || m.stale)
  }

  /** One thread of the rendering loop. */
  function Handle(w: World, index: Index, existing: set<Path>, tid: Tid, m: Meta, path: Path, p: Progress): Progress {
    if UpToDate(w, index, existing, tid, m, path) then
      p.(keep := p.keep + {path}, index := p.index[tid := if m.stale then index[tid] else NewEntry(w, path, m)])
    else if p.budget <= 0 then
      if tid in index && index[tid].path in existing then
        p.(keep := p.keep + {index[tid].path}, index := p.index[tid := index[tid]])
      else p
    else
      var called := p.(budget := p.budget - 1, calls := p.calls + 1);
      match w.full(tid)
      case None => called
      case Some(latest) =>
        called.(cache := called.cache[tid := latest],
                files := called.files[path := w.render(tid)],
                index := called.index[tid := NewEntry(w, path, latest)])
  }

  function HandleAll(w: World, index: Index, existing: set<Path>, matched: map<Tid, Meta>, paths: map<Tid, Path>,
                     order: seq<Tid>, start: Progress): Progress
    requires forall t :: t in order ==> t in matched && t in paths
  {
    if order == [] then start
    else
      var n := |order| - 1;
      Handle(w, index, existing, order[n], matched[order[n]], paths[order[n]],
             HandleAll(w, index, existing, matched, paths, order[..n], start))
  }

  /** The last step: an entry whose old path now belongs to a rendered note is dropped. */
  function DropStolen(files: map<Path, Content>, paths: map<Tid, Path>, index: Index): Index {
    map t | t in index && !(index[t].path in files && (t !in paths || paths[t] != index[t].path)) :: index[t]
  }

  // ------------------------------------------------------------ the run

  function InsertByFirst(matched: map<Tid, Meta>, t: Tid, s: seq<Tid>): seq<Tid>
    requires t in matched && forall u :: u in s ==> u in matched
  {
    if s == [] || matched[t].first >= matched[s[0]].first then [t] + s
    else [s[0]] + InsertByFirst(matched, t, s[1..])
  }

  /** `sorted(matched, key=first, reverse=True)`: newest first, stable. */
  function NewestFirst(matched: map<Tid, Meta>, tids: seq<Tid>): (r: seq<Tid>)
    requires forall u :: u in tids ==> u in matched
    ensures multiset(r) == multiset(tids)
  {
    if tids == [] then [] else
    assert tids == [tids[0]] + tids[1..];
    var rest := NewestFirst(matched, tids[1..]);
    assert forall u :: u in rest ==> u in multiset(rest);
    InsertMultiset(matched, tids[0], rest);
    InsertByFirst(matched, tids[0], rest)
  }

  lemma {:induction false} InsertMultiset(matched: map<Tid, Meta>, t: Tid, s: seq<Tid>)
    requires t in matched && forall u :: u in s ==> u in matched
    ensures multiset(InsertByFirst(matched, t, s)) == multiset(s) + multiset{t}
  {
    if s != [] && !(matched[t].first >= matched[s[0]].first) {
      InsertMultiset(matched, t, s[1..]);
      assert s == [s[0]] + s[1..];
    }
  }

  /** The path assignment gives every thread a path. */
  ghost predicate Assigns(w: World) {
    forall tids, m :: (forall t :: t in tids ==> t in m) ==> forall t :: t in tids ==> t in w.assign(tids, m)
  }

  ghost predicate InOrder(order: seq<Tid>, matched: map<Tid, Meta>, paths: map<Tid, Path>) {
    Distinct(order) && forall t :: t in order ==> t in matched && t in paths
  }

  lemma OrderIsSound(w: World, s: Look, limit: nat)
    requires Sound(s, limit) && Assigns(w)
    ensures InOrder(NewestFirst(s.matched, s.tids), s.matched, w.assign(s.tids, s.matched))
  {
    var order := NewestFirst(s.matched, s.tids);
    DistinctPermuted(s.tids, order);
    forall t ensures t in order <==> t in s.tids {
      assert t in order <==> t in multiset(order);
      assert t in s.tids <==> t in multiset(s.tids);
    }
  }

  datatype Ran = Ran(progress: Progress, order: seq<Tid>, matched: map<Tid, Meta>, paths: map<Tid, Path>)

  /** One run: match, assign paths, handle the threads newest first. */
  function RunGmail(w: World, index: Index, existing: set<Path>, listed: seq<Listed>, aged: seq<Tid>, maxFetch: nat,
                    cache: map<Tid, Meta>): Ran
    requires (forall t :: t in aged ==> t in index) && Assigns(w)
  {
    MatchingSound(w, index, listed, aged, maxFetch, cache);
    var s := Matching(w, index, listed, aged, maxFetch, cache);
    OrderIsSound(w, s, maxFetch * 2 / 3);
    var paths, order := w.assign(s.tids, s.matched), NewestFirst(s.matched, s.tids);
    Ran(HandleAll(w, index, existing, s.matched, paths, order, Rest(s, maxFetch)), order, s.matched, paths)
  }

  /** The calls of a whole run stay within the budget, and its index agrees with its notes. */
  lemma RunIsSound(w: World, index: Index, existing: set<Path>, listed: seq<Listed>, aged: seq<Tid>, maxFetch: nat,
                   cache: map<Tid, Meta>)
    requires (forall t :: t in aged ==> t in index) && Assigns(w)
    ensures var p := RunGmail(w, index, existing, listed, aged, maxFetch, cache);
      && p.progress.calls <= maxFetch
      && IndexAgrees(existing, Outcome(p.progress, p.paths))
  {
    MatchingSound(w, index, listed, aged, maxFetch, cache);
    var s := Matching(w, index, listed, aged, maxFetch, cache);
    OrderIsSound(w, s, maxFetch * 2 / 3);
    var paths, order := w.assign(s.tids, s.matched), NewestFirst(s.matched, s.tids);
    WithinBudget(w, index, existing, s.matched, paths, order, Rest(s, maxFetch));
    Agreement(w, index, existing, s.matched, paths, order, Rest(s, maxFetch));
  }

  /** A run in the terms of its matching phase. */
  lemma RunFrom(w: World, index: Index, existing: set<Path>, listed: seq<Listed>, aged: seq<Tid>, maxFetch: nat,
                cache: map<Tid, Meta>, s: Look)
    requires (forall t :: t in aged ==> t in index) && Assigns(w)
    requires s == Matching(w, index, listed, aged, maxFetch, cache)
    ensures forall t :: t in s.tids ==> t in s.matched
    ensures var order, paths := NewestFirst(s.matched, s.tids), w.assign(s.tids, s.matched);
      && InOrder(order, s.matched, paths)
      && RunGmail(w, index, existing, listed, aged, maxFetch, cache)
         == Ran(HandleAll(w, index, existing, s.matched, paths, order, Rest(s, maxFetch)), order, s.matched, paths)
  {
    MatchingSound(w, index, listed, aged, maxFetch, cache);
    OrderIsSound(w, s, maxFetch * 2 / 3);
  }

  /** brain-sync's memory of thread metadata, and one run of `render_gmail`. */
  class GmailSync {
    var cache: map<Tid, Meta>

    constructor ()
      ensures cache == map[]
    {
      cache := map[];
    }

    /** Phase 1. */
    method MatchThreads(w: World, index: Index, listed: seq<Listed>, aged: seq<Tid>, maxFetch: nat)
      returns (matched: map<Tid, Meta>, tids: seq<Tid>, budget: int, checked: nat)
      requires forall t :: t in aged ==> t in index
      modifies this
      ensures Look(matched, tids, budget, checked, cache) == Matching(w, index, listed, aged, maxFetch, old(cache))
    {
      ghost var start := Look(map[], [], maxFetch * 2 / 3, 0, cache);
      budget := maxFetch * 2 / 3;
      matched, tids, checked := map[], [], 0;
      for i := 0 to |listed|
        invariant Look(matched, tids, budget, checked, cache) == LookAll(w, index, listed[..i], start)
      {
        assert listed[..i + 1][..i] == listed[..i];
        var tid, hid := listed[i].tid, listed[i].hid;
        var meta := if tid in cache then Some(cache[tid]) else None;
        if tid in index && index[tid].hid == hid && !(meta.Some? && meta.value.hid == hid) {
          meta := Some(Stored(index[tid], hid, false));
        }
        if meta.None? || meta.value.hid != hid {
          if budget <= 0 {
            if tid in index {
              matched, tids := AddMatch(matched, tids, tid, Stored(index[tid], index[tid].hid, true));
            }
            continue;
          }
          meta := w.metadata(tid);
          budget, checked := budget - 1, checked + 1;
          if meta.None? { continue; }
          cache := cache[tid := meta.value];
        }
        if w.matches(meta.value.people, meta.value.labels) {
          matched, tids := AddMatch(matched, tids, tid, meta.value);
        }
      }
      assert listed[..|listed|] == listed;
      matched, tids := MatchAged(w, index, Ids(listed), aged, matched, tids, budget, checked);
    }

    /** The second loop: indexed threads that are not listed any more. */
    method MatchAged(w: World, index: Index, listedIds: set<Tid>, aged: seq<Tid>, matched0: map<Tid, Meta>, tids0: seq<Tid>,
                     ghost budget: int, ghost checked: nat)
      returns (matched: map<Tid, Meta>, tids: seq<Tid>)
      requires forall t :: t in aged ==> t in index
      ensures Look(matched, tids, budget, checked, cache)
           == LookAllAged(w, index, listedIds, aged, Look(matched0, tids0, budget, checked, cache))
    {
      ghost var looked := Look(matched0, tids0, budget, checked, cache);
      matched, tids := matched0, tids0;
      for i := 0 to |aged|
        invariant Look(matched, tids, budget, checked, cache) == LookAllAged(w, index, listedIds, aged[..i], looked)
      {
        assert aged[..i + 1][..i] == aged[..i];
        var e := index[aged[i]];
        if aged[i] !in listedIds && w.agedOut(e.first) && w.matches(e.people, "") {
          matched, tids := AddMatch(matched, tids, aged[i], Stored(e, e.hid, true));
        }
      }
      assert aged[..|aged|] == aged;
    }

    /** `render_gmail`. */
    method RenderGmail(w: World, index: Index, existing: set<Path>, listed: seq<Listed>, aged: seq<Tid>, maxFetch: nat)
      returns (r: Result)
      requires (forall t :: t in aged <==> t in index) && Assigns(w)
      modifies this
      ensures var p := RunGmail(w, index, existing, listed, aged, maxFetch, old(cache));
        r == Outcome(p.progress, p.paths) && cache == p.progress.cache
      ensures r.calls <= maxFetch
      ensures IndexAgrees(existing, r)
    {
      var matched, tids, budget, checked := MatchThreads(w, index, listed, aged, maxFetch);
      ghost var s := Look(matched, tids, budget, checked, cache);
      RunFrom(w, index, existing, listed, aged, maxFetch, old(cache), s);
      RunIsSound(w, index, existing, listed, aged, maxFetch, old(cache));
      cache, r := RenderMatched(w, index, existing, matched, tids, maxFetch, checked, cache, s);
    }
  }

  /** Phase 2: paths, order, rendering, and the last look at the index. */
  method RenderMatched(w: World, index: Index, existing: set<Path>, matched: map<Tid, Meta>, tids: seq<Tid>,
                       maxFetch: nat, checked: nat, cache: map<Tid, Meta>, ghost s: Look)
    returns (cache': map<Tid, Meta>, r: Result)
    requires s.matched == matched && s.tids == tids && s.checked == checked && s.cache == cache
    requires forall t :: t in tids ==> t in matched
    requires InOrder(NewestFirst(matched, tids), matched, w.assign(tids, matched))
    ensures var paths := w.assign(tids, matched);
      var p := HandleAll(w, index, existing, matched, paths, NewestFirst(matched, tids), Rest(s, maxFetch));
      r == Outcome(p, paths) && cache' == p.cache
  {
    var paths := w.assign(tids, matched);
    var start := Progress(map[], {}, map[], maxFetch - checked, checked, cache);
    assert start == Rest(s, maxFetch);
    var p := RenderLoop(w, index, existing, matched, paths, NewestFirst(matched, tids), start);
    cache', r := p.cache, Outcome(p, paths);
  }

  function Rest(s: Look, maxFetch: nat): Progress {
    Progress(map[], {}, map[], maxFetch - s.checked, s.checked, s.cache)
  }

  function Outcome(p: Progress, paths: map<Tid, Path>): Result {
    Result(p.files, p.keep, DropStolen(p.files, paths, p.index), p.calls)
  }

  /** Render what is new or changed, newest first, within what is left of the budget. */
  method RenderLoop(w: World, index: Index, existing: set<Path>, matched: map<Tid, Meta>, paths: map<Tid, Path>,
                    order: seq<Tid>, start: Progress) returns (p: Progress)
    requires forall t :: t in order ==> t in matched && t in paths
    ensures p == HandleAll(w, index, existing, matched, paths, order, start)
  {
    p := start;
    for i := 0 to |order|
      invariant p == HandleAll(w, index, existing, matched, paths, order[..i], start)
    {
      assert order[..i + 1][..i] == order[..i];
      p := Handle(w, index, existing, order[i], matched[order[i]], paths[order[i]], p);
    }
    assert order[..|order|] == order;
  }

  method AddMatch(matched: map<Tid, Meta>, tids: seq<Tid>, tid: Tid, m: Meta) returns (matched': map<Tid, Meta>, tids': seq<Tid>)
    ensures matched' == matched[tid := m]
    ensures tids' == if tid in matched then tids else tids + [tid]
  {
    tids' := if tid in matched then tids else tids + [tid];
    matched' := matched[tid := m];
  }

  // ------------------------------------------------------------ the index agrees with the tree

  /** The notes left in the folder after the push: rendered, or kept and there. */
  function NotesLeft(existing: set<Path>, r: Result): set<Path> {
    r.files.Keys + (r.keep * existing)
  }

  /** The indexed paths are exactly the notes left. */
  ghost predicate IndexAgrees(existing: set<Path>, r: Result) {
    forall p :: p in NotesLeft(existing, r) <==> exists t :: t in r.index && r.index[t].path == p
  }

  /** No two threads claim one path. */
  ghost predicate InjectiveIndex(index: Index) {
    forall t, u :: t in index && u in index && index[t].path == index[u].path ==> t == u
  }

  ghost predicate InjectivePaths(paths: map<Tid, Path>) {
    forall t, u :: t in paths && u in paths && paths[t] == paths[u] ==> t == u
  }

  lemma {:induction false} WithinBudget(w: World, index: Index, existing: set<Path>, matched: map<Tid, Meta>, paths: map<Tid, Path>,
                                        order: seq<Tid>, start: Progress)
    requires forall t :: t in order ==> t in matched && t in paths
    requires start.budget >= 0
    ensures var p := HandleAll(w, index, existing, matched, paths, order, start);
            p.budget >= 0 && p.calls + p.budget == start.calls + start.budget
  {
    if order != [] { WithinBudget(w, index, existing, matched, paths, order[..|order| - 1], start); }
  }

  /** What the loop's state says about one indexed thread and about every note so far. */
  ghost predicate EntryExplained(index: Index, existing: set<Path>, paths: map<Tid, Path>, p: Progress, t: Tid)
    requires t in p.index
  {
    var path := p.index[t].path;
    || (t in paths && path == paths[t] && path in p.files)
    || (t in index && path == index[t].path && path in p.keep && path in existing)
  }

  ghost predicate NotesExplained(existing: set<Path>, paths: map<Tid, Path>, p: Progress) {
    && (forall f :: f in p.files ==> exists t :: t in p.index && p.index[t].path == f && t in paths && paths[t] == f)
    && (forall f :: f in p.keep && f in existing ==> exists t :: t in p.index && p.index[t].path == f)
  }

  lemma {:induction false} OnlyHandled(w: World, index: Index, existing: set<Path>, matched: map<Tid, Meta>, paths: map<Tid, Path>,
                                       order: seq<Tid>, start: Progress, t: Tid)
    requires forall t :: t in order ==> t in matched && t in paths
    requires start.index == map[]
    requires t in HandleAll(w, index, existing, matched, paths, order, start).index
    ensures t in order
  {
    var n := |order| - 1;
    if t != order[n] { OnlyHandled(w, index, existing, matched, paths, order[..n], start, t); }
  }

  lemma EntryStep(w: World, index: Index, existing: set<Path>, tid: Tid, m: Meta, paths: map<Tid, Path>, p: Progress, t: Tid)
    requires tid in paths
    requires t in p.index && t != tid ==> EntryExplained(index, existing, paths, p, t)
    requires tid !in p.index
    ensures var q := Handle(w, index, existing, tid, m, paths[tid], p);
            t in q.index ==> EntryExplained(index, existing, paths, q, t)
  {
  }

  lemma {:induction false} EntriesExplained(w: World, index: Index, existing: set<Path>, matched: map<Tid, Meta>, paths: map<Tid, Path>,
                                            order: seq<Tid>, start: Progress, t: Tid)
    requires forall t :: t in order ==> t in matched && t in paths
    requires Distinct(order)
    requires start.files == map[] && start.keep == {} && start.index == map[]
    requires t in HandleAll(w, index, existing, matched, paths, order, start).index
    ensures EntryExplained(index, existing, paths, HandleAll(w, index, existing, matched, paths, order, start), t)
  {
    var n := |order| - 1;
    var before, tid := order[..n], order[n];
    var p := HandleAll(w, index, existing, matched, paths, before, start);
    if t in p.index && t != tid { EntriesExplained(w, index, existing, matched, paths, before, start, t); }
    if tid in p.index { OnlyHandled(w, index, existing, matched, paths, before, start, tid); }
    EntryStep(w, index, existing, tid, matched[tid], paths, p, t);
  }

  lemma {:induction false} AllNotesExplained(w: World, index: Index, existing: set<Path>, matched: map<Tid, Meta>, paths: map<Tid, Path>,
                                             order: seq<Tid>, start: Progress)
    requires forall t :: t in order ==> t in matched && t in paths
    requires Distinct(order)
    requires start.files == map[] && start.keep == {} && start.index == map[]
    ensures NotesExplained(existing, paths, HandleAll(w, index, existing, matched, paths, order, start))
  {
    if order != [] {
      var n := |order| - 1;
      var before, tid := order[..n], order[n];
      AllNotesExplained(w, index, existing, matched, paths, before, start);
      var p := HandleAll(w, index, existing, matched, paths, before, start);
      if tid in p.index { OnlyHandled(w, index, existing, matched, paths, before, start, tid); }
      ExplainedStep(w, index, existing, tid, matched[tid], paths, p);
    }
  }

  lemma ExplainedStep(w: World, index: Index, existing: set<Path>, tid: Tid, m: Meta, paths: map<Tid, Path>, p: Progress)
    requires tid in paths && tid !in p.index && NotesExplained(existing, paths, p)
    ensures NotesExplained(existing, paths, Handle(w, index, existing, tid, m, paths[tid], p))
  {
    var q := Handle(w, index, existing, tid, m, paths[tid], p);
    forall f | f in q.files ensures exists t :: t in q.index && q.index[t].path == f && t in paths && paths[t] == f {
      if f in p.files {
        var t :| t in p.index && p.index[t].path == f && t in paths && paths[t] == f;
        assert t in q.index && q.index[t] == p.index[t];
      } else {
        assert q.index[tid].path == f;
      }
    }
    forall f | f in q.keep && f in existing ensures exists t :: t in q.index && q.index[t].path == f {
      if f in p.keep {
        var t :| t in p.index && p.index[t].path == f;
        assert t in q.index && q.index[t] == p.index[t];
      } else {
        assert q.index[tid].path == f;
      }
    }
  }

  /** Indexed paths are exactly the notes left: kept, rendered, deferred and stolen paths included. */
  lemma Agreement(w: World, index: Index, existing: set<Path>, matched: map<Tid, Meta>, paths: map<Tid, Path>,
                  order: seq<Tid>, start: Progress)
    requires forall t :: t in order ==> t in matched && t in paths
    requires Distinct(order)
    requires start.files == map[] && start.keep == {} && start.index == map[]
    ensures var p := HandleAll(w, index, existing, matched, paths, order, start);
            IndexAgrees(existing, Outcome(p, paths))
  {
    var p := HandleAll(w, index, existing, matched, paths, order, start);
    AllNotesExplained(w, index, existing, matched, paths, order, start);
    var r := Outcome(p, paths);
    forall f ensures f in NotesLeft(existing, r) <==> exists t :: t in r.index && r.index[t].path == f {
      if f in p.files {
        var t :| t in p.index && p.index[t].path == f && t in paths && paths[t] == f;
        assert t in r.index && r.index[t].path == f;
      } else if f in p.keep && f in existing {
        var t :| t in p.index && p.index[t].path == f;
        assert t in r.index && r.index[t].path == f;
      }
      if t :| t in r.index && r.index[t].path == f {
        EntriesExplained(w, index, existing, matched, paths, order, start, t);
      }
    }
  }

  /** If the old index and the new paths give every thread a path of its own, so does the new index. */
  lemma Ownership(w: World, index: Index, existing: set<Path>, matched: map<Tid, Meta>, paths: map<Tid, Path>,
                  order: seq<Tid>, start: Progress)
    requires forall t :: t in order ==> t in matched && t in paths
    requires Distinct(order)
    requires start.files == map[] && start.keep == {} && start.index == map[]
    requires InjectivePaths(paths) && InjectiveIndex(index)
    ensures var p := HandleAll(w, index, existing, matched, paths, order, start);
            InjectiveIndex(Outcome(p, paths).index)
  {
    var p := HandleAll(w, index, existing, matched, paths, order, start);
    var final := DropStolen(p.files, paths, p.index);
    forall t, u | t in final && u in final && final[t].path == final[u].path ensures t == u {
      EntriesExplained(w, index, existing, matched, paths, order, start, t);
      EntriesExplained(w, index, existing, matched, paths, order, start, u);
    }
  }

  /**
   * A matched thread whose note is there keeps a note, or gives its path up to
   * another thread, or turns out to have no messages left: being deferred for
   * lack of budget loses nothing.
   */
  lemma DeferredKeepsNote(w: World, index: Index, existing: set<Path>, matched: map<Tid, Meta>, paths: map<Tid, Path>,
                          order: seq<Tid>, start: Progress, t: Tid)
    requires InOrder(order, matched, paths) && t in order
    requires start.files == map[] && start.keep == {} && start.index == map[]
    requires t in index && index[t].path in existing
    ensures var p := HandleAll(w, index, existing, matched, paths, order, start);
      || t in Outcome(p, paths).index
      || (index[t].path in p.files && paths[t] != index[t].path)
      || w.full(t).None?
  {
    var p := HandleAll(w, index, existing, matched, paths, order, start);
    Indexed(w, index, existing, matched, paths, order, start, t);
    if t in p.index { EntriesExplained(w, index, existing, matched, paths, order, start, t); }
  }

  lemma {:induction false} Indexed(w: World, index: Index, existing: set<Path>, matched: map<Tid, Meta>, paths: map<Tid, Path>,
                                   order: seq<Tid>, start: Progress, t: Tid)
    requires InOrder(order, matched, paths) && t in order
    requires t in index && index[t].path in existing
    ensures t in HandleAll(w, index, existing, matched, paths, order, start).index || w.full(t).None?
  {
    var n := |order| - 1;
    if t != order[n] { Indexed(w, index, existing, matched, paths, order[..n], start, t); }
  }

  /** The paths that path assignment gives are distinct, unless two threads clash. */
  lemma AssignedPaths(fc: P.Folding, items: seq<P.Item>, folder: string, paths: map<Tid, Path>)
    requires P.UniqueKeys(items) && P.PlainPunctuation(fc) && P.NoClash(fc, items)
    requires forall it :: it in items ==> '(' !in P.Fold(fc, P.Prefix8(it.key)) && P.Assigned(fc, items, folder, paths, it)
    requires forall k :: k in paths ==> P.HasKey(items, k)
    ensures InjectivePaths(paths)
  {
    forall t, u | t in paths && u in paths && paths[t] == paths[u] ensures t == u {
      var i :| 0 <= i < |items| && items[i].key == t;
      var j :| 0 <= j < |items| && items[j].key == u;
      if items[i] != items[j] { P.PathsDiffer(fc, items, folder, paths, items[i], items[j]); }
    }
  }
}
