// What a run of `render_gmail` does to each thread: which are looked up, which
// rendered, what the notes say. Over any sequence of runs every note says what
// its index entry records.

module GmailNotes {
  import opened Common
  import opened Reconciler
  import opened Gmail

  // ------------------------------------------------------------ matching

  /** Neither the cache nor the index has the thread at the listed history id. */
  function Unknown(index: Index, cache: map<Tid, Meta>): Listed -> bool {
    (l: Listed) =>
      !(l.tid in cache && cache[l.tid].hid == l.hid) && !(l.tid in index && index[l.tid].hid == l.hid)
  }

  /** The calls of the matching loop: one for each unknown thread, while there is budget. */
  lemma {:induction false} CallsForUnknown(w: World, index: Index, listed: seq<Listed>, start: Look)
    requires DistinctIds(listed) && start.budget >= 0
    ensures var s, unknown := LookAll(w, index, listed, start), |Filter(listed, Unknown(index, start.cache))|;
      && s.checked == start.checked + (if unknown <= start.budget then unknown else start.budget)
      && s.budget == start.budget - (s.checked - start.checked)
  {
    if listed != [] {
      var n := |listed| - 1;
      var before, l := listed[..n], listed[n];
      EarlierIds(listed);
      CallsForUnknown(w, index, before, start);
      CacheUntouched(w, index, before, start, l.tid);
      OneLook(w, index, LookAll(w, index, before, start), l);
      assert listed == before + [l];
      FilterOne(before, l, Unknown(index, start.cache));
    }
  }

  lemma OneLook(w: World, index: Index, s: Look, l: Listed)
    requires s.budget >= 0
    ensures var called := Unknown(index, s.cache)(l) && s.budget > 0;
      && LookAt(w, index, s, l).checked == s.checked + (if called then 1 else 0)
      && LookAt(w, index, s, l).budget == s.budget - (if called then 1 else 0)
  {
  }

  /** Where the metadata of a matched thread comes from. */
  ghost predicate Sourced(w: World, index: Index, cache: map<Tid, Meta>, l: Listed, m: Meta) {
    if l.tid in cache && cache[l.tid].hid == l.hid then m == cache[l.tid]
    else if l.tid in index && index[l.tid].hid == l.hid then
      m == Meta(l.hid, index[l.tid].people, "", index[l.tid].subject, index[l.tid].first, false)
    else
      || w.metadata(l.tid) == Some(m)
      || (l.tid in index && m == Meta(index[l.tid].hid, index[l.tid].people, "", index[l.tid].subject, index[l.tid].first, true))
  }

  /**
   * A matched thread is taken at its listed history id from the cache or from the
   * index; if neither has that, as the server answers, or stale from the index.
   */
  lemma {:induction false} MatchedIsCurrent(w: World, index: Index, listed: seq<Listed>, start: Look, i: nat)
    requires DistinctIds(listed) && i < |listed| && start.matched == map[]
    requires listed[i].tid in LookAll(w, index, listed, start).matched
    ensures Sourced(w, index, start.cache, listed[i], LookAll(w, index, listed, start).matched[listed[i].tid])
  {
    var n := |listed| - 1;
    var before := LookAll(w, index, listed[..n], start);
    if i < n {
      assert listed[..n][i] == listed[i];
      LookAtOthers(w, index, before, listed[n], listed[i].tid);
      MatchedIsCurrent(w, index, listed[..n], start, i);
    } else {
      EarlierIds(listed);
      CacheUntouched(w, index, listed[..n], start, listed[n].tid);
      OnlyListedMatched(w, index, listed[..n], start, listed[n].tid);
      LookSource(w, index, before, start.cache, listed[n]);
    }
  }

  lemma LookSource(w: World, index: Index, s: Look, cache: map<Tid, Meta>, l: Listed)
    requires l.tid !in s.matched && l.tid in LookAt(w, index, s, l).matched
    requires (l.tid in s.cache <==> l.tid in cache) && (l.tid in cache ==> s.cache[l.tid] == cache[l.tid])
    ensures Sourced(w, index, cache, l, LookAt(w, index, s, l).matched[l.tid])
  {
  }

  lemma {:induction false} OnlyListedMatched(w: World, index: Index, listed: seq<Listed>, start: Look, t: Tid)
    requires start.matched == map[] && t !in Ids(listed)
    ensures t !in LookAll(w, index, listed, start).matched
  {
    if listed != [] {
      var n := |listed| - 1;
      assert listed[n] in listed && forall l :: l in listed[..n] ==> l in listed;
      OnlyListedMatched(w, index, listed[..n], start, t);
      LookAtOthers(w, index, LookAll(w, index, listed[..n], start), listed[n], t);
    }
  }

  /**
   * An indexed thread that is not listed is matched exactly if it is older than
   * the window and its people still match; it is taken over stale.
   */
  lemma {:induction false} AgedIff(w: World, index: Index, listed: set<Tid>, aged: seq<Tid>, start: Look, t: Tid)
    requires (forall u :: u in aged ==> u in index) && (t !in listed ==> t !in start.matched)
    ensures var s := LookAllAged(w, index, listed, aged, start);
      && (t in listed ==> (t in s.matched <==> t in start.matched) && (t in s.matched ==> s.matched[t] == start.matched[t]))
      && (t !in listed ==>
            && (t in s.matched <==> t in aged && w.agedOut(index[t].first) && w.matches(index[t].people, ""))
            && (t in s.matched ==>
                  s.matched[t] == Meta(index[t].hid, index[t].people, "", index[t].subject, index[t].first, true)))
  {
    if aged != [] { AgedIff(w, index, listed, aged[..|aged| - 1], start, t); }
  }

  // ------------------------------------------------------------ the order

  function MatchedIn(matched: map<Tid, Meta>): Listed -> bool {
    (l: Listed) => l.tid in matched
  }

  function TidsOf(listed: seq<Listed>): seq<Tid> {
    seq(|listed|, i requires 0 <= i < |listed| => listed[i].tid)
  }

  /** The listed threads that match, in the order of the list. */
  lemma {:induction false} MatchedInOrder(w: World, index: Index, listed: seq<Listed>, start: Look)
    requires DistinctIds(listed) && start.matched == map[] && start.tids == []
    ensures var s := LookAll(w, index, listed, start);
      s.tids == TidsOf(Filter(listed, MatchedIn(s.matched)))
  {
    if listed != [] {
      var n := |listed| - 1;
      var before, l := listed[..n], listed[n];
      var s, r := LookAll(w, index, before, start), LookAll(w, index, listed, start);
      MatchedInOrder(w, index, before, start);
      EarlierIds(listed);
      OnlyListedMatched(w, index, before, start, l.tid);
      OneMatch(w, index, s, l);
      forall x | x in before ensures MatchedIn(s.matched)(x) <==> MatchedIn(r.matched)(x) {
        LookAtOthers(w, index, s, l, x.tid);
      }
      FilterSame(before, MatchedIn(s.matched), MatchedIn(r.matched));
      assert listed == before + [l];
      FilterOne(before, l, MatchedIn(r.matched));
      assert TidsOf(Filter(before, MatchedIn(r.matched)) + [l]) == TidsOf(Filter(before, MatchedIn(r.matched))) + [l.tid];
    }
  }

  lemma OneMatch(w: World, index: Index, s: Look, l: Listed)
    requires l.tid !in s.matched
    ensures var r := LookAt(w, index, s, l); r.tids == if l.tid in r.matched then s.tids + [l.tid] else s.tids
  {
  }

  function AgedMatch(w: World, index: Index, listed: set<Tid>): Tid -> bool {
    (t: Tid) => t in index && t !in listed && w.agedOut(index[t].first) && w.matches(index[t].people, "")
  }

  /** After them the ones that fell out of the window, in the order of the index. */
  lemma {:induction false} AgedInOrder(w: World, index: Index, listed: set<Tid>, aged: seq<Tid>, start: Look)
    requires (forall u :: u in aged ==> u in index) && Distinct(aged) && forall t :: t in start.matched ==> t in listed
    ensures LookAllAged(w, index, listed, aged, start).tids == start.tids + Filter(aged, AgedMatch(w, index, listed))
  {
    if aged != [] {
      var n := |aged| - 1;
      var before, t := aged[..n], aged[n];
      AgedInOrder(w, index, listed, before, start);
      AgedIff(w, index, listed, before, start, t);
      assert aged == before + [t] && t !in before;
      FilterOne(before, t, AgedMatch(w, index, listed));
    }
  }

  function SameFirst(matched: map<Tid, Meta>, first: nat): Tid -> bool {
    (t: Tid) => t in matched && matched[t].first == first
  }

  lemma {:induction false} InsertedOrder(matched: map<Tid, Meta>, t: Tid, s: seq<Tid>)
    requires t in matched && forall u :: u in s ==> u in matched
    requires forall i, j :: 0 <= i < j < |s| ==> matched[s[i]].first >= matched[s[j]].first
    ensures var r := InsertByFirst(matched, t, s);
      && (forall u :: u in r ==> u in matched)
      && forall i, j :: 0 <= i < j < |r| ==> matched[r[i]].first >= matched[r[j]].first
  {
    if s != [] && !(matched[t].first >= matched[s[0]].first) {
      var rest := InsertByFirst(matched, t, s[1..]);
      InsertedOrder(matched, t, s[1..]);
      InsertMultiset(matched, t, s[1..]);
      forall j | 0 <= j < |rest| ensures matched[s[0]].first >= matched[rest[j]].first {
        assert rest[j] in multiset(rest);
        if rest[j] != t {
          assert rest[j] in multiset(s[1..]);
          var i :| 1 <= i < |s| && s[i] == rest[j];
        }
      }
    }
  }

  lemma {:induction false} InsertedTies(matched: map<Tid, Meta>, t: Tid, s: seq<Tid>, first: nat)
    requires t in matched && forall u :: u in s ==> u in matched
    requires forall i, j :: 0 <= i < j < |s| ==> matched[s[i]].first >= matched[s[j]].first
    ensures var p := SameFirst(matched, first);
      Filter(InsertByFirst(matched, t, s), p) == if p(t) then [t] + Filter(s, p) else Filter(s, p)
  {
    var p := SameFirst(matched, first);
    if s == [] || matched[t].first >= matched[s[0]].first {
      assert ([t] + s)[1..] == s;
    } else {
      InsertedTies(matched, t, s[1..], first);
      var rest := InsertByFirst(matched, t, s[1..]);
      assert ([s[0]] + rest)[1..] == rest;
      assert !(p(t) && p(s[0]));
    }
  }

  /** The newest first, and threads of one time in the order they were matched. */
  lemma {:induction false} NewestFirstOrder(matched: map<Tid, Meta>, tids: seq<Tid>)
    requires forall u :: u in tids ==> u in matched
    ensures var r := NewestFirst(matched, tids);
      && (forall u :: u in r ==> u in matched)
      && (forall i, j :: 0 <= i < j < |r| ==> matched[r[i]].first >= matched[r[j]].first)
      && forall first: nat :: Filter(r, SameFirst(matched, first)) == Filter(tids, SameFirst(matched, first))
  {
    if tids != [] {
      NewestFirstOrder(matched, tids[1..]);
      InsertedOrder(matched, tids[0], NewestFirst(matched, tids[1..]));
      forall first: nat ensures Filter(NewestFirst(matched, tids), SameFirst(matched, first)) == Filter(tids, SameFirst(matched, first)) {
        InsertedTies(matched, tids[0], NewestFirst(matched, tids[1..]), first);
      }
    }
  }

  // ------------------------------------------------------------ what becomes of one thread

  /** The note on disk is at the thread's path, and nothing it depends on has changed, or the thread is stale. */
  ghost predicate Same(w: World, index: Index, existing: set<Path>, t: Tid, m: Meta, path: Path) {
    && t in index && index[t].path == path && path in existing
    && (m.stale || (index[t].hid == m.hid && index[t].links == w.links(m.people) && index[t].version == w.version))
  }

  /** The thread was fetched and rendered in this run. */
  ghost predicate Rendered(w: World, t: Tid, path: Path, p: Progress) {
    && w.full(t).Some? && path in p.files && p.files[path] == w.render(t) && t in p.index && t in p.cache
    && var m := w.full(t).value;
    && p.index[t] == Entry(path, m.hid, m.people, m.subject, m.first, w.links(m.people), w.version) && p.cache[t] == m
  }

  /** The old note stays, under an entry that records what it records. */
  ghost predicate Carried(index: Index, existing: set<Path>, t: Tid, p: Progress) {
    && t in index && t in p.index && index[t].path in existing && index[t].path in p.keep
    && p.index[t].path == index[t].path && p.index[t].hid == index[t].hid
    && p.index[t].links == index[t].links && p.index[t].version == index[t].version
  }

  /**
   * What becomes of a matched thread: its note stays if nothing changed. With
   * budget left, it is rendered, or dropped if there is no answer. Without, the
   * old note stays if there is one.
   */
  ghost predicate Fate(w: World, index: Index, existing: set<Path>, t: Tid, m: Meta, path: Path, budget: int, p: Progress) {
    if Same(w, index, existing, t, m, path) then
      && Carried(index, existing, t, p)
      && p.index[t] == if m.stale then index[t]
                       else Entry(path, m.hid, m.people, m.subject, m.first, w.links(m.people), w.version)
    else if budget > 0 then
      if w.full(t).Some? then Rendered(w, t, path, p) else t !in p.index
    else
      if t in index && index[t].path in existing then Carried(index, existing, t, p) && p.index[t] == index[t]
      else t !in p.index
  }

  lemma FateAtOnce(w: World, index: Index, existing: set<Path>, t: Tid, m: Meta, path: Path, q: Progress)
    requires t !in q.index
    ensures Fate(w, index, existing, t, m, path, q.budget, Handle(w, index, existing, t, m, path, q))
    ensures Handle(w, index, existing, t, m, path, q).calls
         == q.calls + (if !Same(w, index, existing, t, m, path) && q.budget > 0 then 1 else 0)
  {
  }

  lemma FateStays(w: World, index: Index, existing: set<Path>, t: Tid, m: Meta, path: Path, budget: int,
                  u: Tid, m': Meta, path': Path, p: Progress)
    requires Fate(w, index, existing, t, m, path, budget, p) && t != u && path != path'
    ensures Fate(w, index, existing, t, m, path, budget, Handle(w, index, existing, u, m', path', p))
  {
  }

  /** The fate of the thread in place `i`, with the budget there was when its turn came. */
  ghost predicate FateAt(w: World, index: Index, existing: set<Path>, matched: map<Tid, Meta>, paths: map<Tid, Path>,
                         order: seq<Tid>, start: Progress, i: nat, p: Progress)
    requires (forall t :: t in order ==> t in matched && t in paths) && i < |order|
  {
    Fate(w, index, existing, order[i], matched[order[i]], paths[order[i]],
         HandleAll(w, index, existing, matched, paths, order[..i], start).budget, p)
  }

  lemma {:induction false} EachFate(w: World, index: Index, existing: set<Path>, matched: map<Tid, Meta>, paths: map<Tid, Path>,
                                    order: seq<Tid>, start: Progress, i: nat)
    requires InOrder(order, matched, paths) && InjectivePaths(paths) && start.index == map[] && i < |order|
    ensures FateAt(w, index, existing, matched, paths, order, start, i,
                   HandleAll(w, index, existing, matched, paths, order, start))
  {
    var n := |order| - 1;
    if i == n {
      LastFate(w, index, existing, matched, paths, order, start);
    } else {
      EachFate(w, index, existing, matched, paths, order[..n], start, i);
      EarlierFate(w, index, existing, matched, paths, order, start, i,
                  HandleAll(w, index, existing, matched, paths, order[..n], start));
    }
  }

  lemma LastFate(w: World, index: Index, existing: set<Path>, matched: map<Tid, Meta>, paths: map<Tid, Path>,
                 order: seq<Tid>, start: Progress)
    requires InOrder(order, matched, paths) && start.index == map[] && order != []
    ensures FateAt(w, index, existing, matched, paths, order, start, |order| - 1,
                   HandleAll(w, index, existing, matched, paths, order, start))
  {
    var n := |order| - 1;
    var before := HandleAll(w, index, existing, matched, paths, order[..n], start);
    if order[n] in before.index { OnlyHandled(w, index, existing, matched, paths, order[..n], start, order[n]); }
    FateAtOnce(w, index, existing, order[n], matched[order[n]], paths[order[n]], before);
  }

  lemma EarlierFate(w: World, index: Index, existing: set<Path>, matched: map<Tid, Meta>, paths: map<Tid, Path>,
                    order: seq<Tid>, start: Progress, i: nat, before: Progress)
    requires InOrder(order, matched, paths) && InjectivePaths(paths) && i < |order| - 1
    requires FateAt(w, index, existing, matched, paths, order[..|order| - 1], start, i, before)
    ensures var u := order[|order| - 1];
      FateAt(w, index, existing, matched, paths, order, start, i, Handle(w, index, existing, u, matched[u], paths[u], before))
  {
    var n := |order| - 1;
    assert order[..n][..i] == order[..i] && order[..n][i] == order[i];
    assert order[i] != order[n] && paths[order[i]] != paths[order[n]];
    FateStays(w, index, existing, order[i], matched[order[i]], paths[order[i]],
              HandleAll(w, index, existing, matched, paths, order[..i], start).budget,
              order[n], matched[order[n]], paths[order[n]], before);
  }

  lemma HandleCosts(w: World, index: Index, existing: set<Path>, t: Tid, m: Meta, path: Path, q: Progress)
    ensures Handle(w, index, existing, t, m, path, q).budget <= q.budget
  {
  }

  lemma {:induction false} BudgetFalls(w: World, index: Index, existing: set<Path>, matched: map<Tid, Meta>, paths: map<Tid, Path>,
                                       order: seq<Tid>, start: Progress, i: nat)
    requires (forall t :: t in order ==> t in matched && t in paths) && i <= |order|
    ensures HandleAll(w, index, existing, matched, paths, order[..i], start).budget
         >= HandleAll(w, index, existing, matched, paths, order, start).budget
  {
    if i < |order| {
      var n := |order| - 1;
      assert order[..n][..i] == order[..i];
      BudgetFalls(w, index, existing, matched, paths, order[..n], start, i);
      HandleCosts(w, index, existing, order[n], matched[order[n]], paths[order[n]],
                  HandleAll(w, index, existing, matched, paths, order[..n], start));
    } else {
      assert order[..i] == order;
    }
  }

  /** With budget to spare, every matched thread that changed is rendered, or has no answer. */
  lemma NothingDeferred(w: World, index: Index, existing: set<Path>, matched: map<Tid, Meta>, paths: map<Tid, Path>,
                        order: seq<Tid>, start: Progress, t: Tid)
    requires InOrder(order, matched, paths) && InjectivePaths(paths) && start.index == map[] && t in order
    requires HandleAll(w, index, existing, matched, paths, order, start).budget > 0
    ensures var p := HandleAll(w, index, existing, matched, paths, order, start);
      if Same(w, index, existing, t, matched[t], paths[t]) then Carried(index, existing, t, p)
      else if w.full(t).Some? then Rendered(w, t, paths[t], p) else t !in p.index
  {
    var i :| 0 <= i < |order| && order[i] == t;
    EachFate(w, index, existing, matched, paths, order, start, i);
    BudgetFalls(w, index, existing, matched, paths, order, start, i);
  }

  // ------------------------------------------------------------ what the notes say

  /** The note of a thread, from its messages at a history id, the link signature and the render version. */
  type Text = (Tid, string, string, string) -> Content

  ghost predicate Honest(w: World, text: Text) {
    forall t :: w.full(t).Some? ==> w.render(t) == text(t, w.full(t).value.hid, w.links(w.full(t).value.people), w.version)
  }

  ghost predicate SaysEntry(text: Text, notes: map<Path, Content>, t: Tid, e: Entry) {
    e.path in notes && notes[e.path] == text(t, e.hid, e.links, e.version)
  }

  /** Every indexed thread has its note, and it says what the entry records. */
  ghost predicate Truthful(text: Text, notes: map<Path, Content>, index: Index) {
    forall t :: t in index ==> SaysEntry(text, notes, t, index[t])
  }

  /** The notes after the push. */
  function NotesAfter(notes: map<Path, Content>, r: Result): map<Path, Content> {
    map p | p in NotesLeft(notes.Keys, r) :: if p in r.files then r.files[p] else notes[p]
  }

  lemma EntrySays(w: World, text: Text, notes: map<Path, Content>, index: Index, matched: map<Tid, Meta>, paths: map<Tid, Path>,
                  order: seq<Tid>, start: Progress, t: Tid)
    requires InOrder(order, matched, paths) && InjectivePaths(paths) && Fresh(start)
    requires Truthful(text, notes, index) && Honest(w, text)
    requires t in Outcome(HandleAll(w, index, notes.Keys, matched, paths, order, start), paths).index
    ensures var r := Outcome(HandleAll(w, index, notes.Keys, matched, paths, order, start), paths);
      SaysEntry(text, NotesAfter(notes, r), t, r.index[t])
  {
    var p := HandleAll(w, index, notes.Keys, matched, paths, order, start);
    OnlyHandled(w, index, notes.Keys, matched, paths, order, start, t);
    var i :| 0 <= i < |order| && order[i] == t;
    EachFate(w, index, notes.Keys, matched, paths, order, start, i);
    if !Rendered(w, t, paths[t], p) && p.index[t].path in p.files {
      KeptIsNotOverwritten(w, index, notes.Keys, matched, paths, order, start, i);
    }
  }

  ghost predicate Fresh(start: Progress) {
    start.files == map[] && start.keep == {} && start.index == map[]
  }

  /** A thread that was not rendered has no file at its own path. */
  lemma KeptIsNotOverwritten(w: World, index: Index, existing: set<Path>, matched: map<Tid, Meta>, paths: map<Tid, Path>,
                             order: seq<Tid>, start: Progress, i: nat)
    requires InOrder(order, matched, paths) && InjectivePaths(paths) && Fresh(start) && i < |order|
    requires !Rendered(w, order[i], paths[order[i]], HandleAll(w, index, existing, matched, paths, order, start))
    ensures paths[order[i]] !in HandleAll(w, index, existing, matched, paths, order, start).files
  {
    var p, path := HandleAll(w, index, existing, matched, paths, order, start), paths[order[i]];
    if path in p.files {
      FilesAreRendered(w, index, existing, matched, paths, order, start, path);
    }
  }

  lemma {:induction false} FilesAreRendered(w: World, index: Index, existing: set<Path>, matched: map<Tid, Meta>, paths: map<Tid, Path>,
                                            order: seq<Tid>, start: Progress, path: Path)
    requires InOrder(order, matched, paths) && InjectivePaths(paths) && Fresh(start)
    requires path in HandleAll(w, index, existing, matched, paths, order, start).files
    ensures exists t :: t in order && paths[t] == path && Rendered(w, t, path, HandleAll(w, index, existing, matched, paths, order, start))
  {
    var n := |order| - 1;
    var before, t := HandleAll(w, index, existing, matched, paths, order[..n], start), order[n];
    if path in before.files {
      FilesAreRendered(w, index, existing, matched, paths, order[..n], start, path);
      var u :| u in order[..n] && paths[u] == path && Rendered(w, u, path, before);
      assert u in order && u != t;
      RenderedStays(w, index, existing, u, path, t, matched[t], paths[t], before);
    } else {
      assert t in order;
      NewFile(w, index, existing, t, matched[t], paths[t], before, path);
    }
  }

  lemma RenderedStays(w: World, index: Index, existing: set<Path>, u: Tid, path: Path, t: Tid, m: Meta, path': Path, q: Progress)
    requires Rendered(w, u, path, q) && u != t && path != path'
    ensures Rendered(w, u, path, Handle(w, index, existing, t, m, path', q))
  {
  }

  lemma NewFile(w: World, index: Index, existing: set<Path>, t: Tid, m: Meta, path: Path, q: Progress, f: Path)
    requires f !in q.files && f in Handle(w, index, existing, t, m, path, q).files
    ensures f == path && Rendered(w, t, path, Handle(w, index, existing, t, m, path, q))
  {
  }

  /** A run keeps the index truthful and its paths apart, and leaves exactly the indexed notes. */
  lemma RunIsTruthful(w: World, text: Text, notes: map<Path, Content>, index: Index, listed: seq<Listed>, aged: seq<Tid>,
                      maxFetch: nat, cache: map<Tid, Meta>)
    requires (forall t :: t in aged ==> t in index) && Assigns(w) && OwnPaths(w) && Honest(w, text)
    requires Truthful(text, notes, index) && InjectiveIndex(index)
    ensures var p := RunGmail(w, index, notes.Keys, listed, aged, maxFetch, cache);
      var r := Outcome(p.progress, p.paths);
      && Truthful(text, NotesAfter(notes, r), r.index) && InjectiveIndex(r.index)
      && forall f :: f in NotesAfter(notes, r) <==> exists t :: t in r.index && r.index[t].path == f
  {
    var s := Matching(w, index, listed, aged, maxFetch, cache);
    MatchingSound(w, index, listed, aged, maxFetch, cache);
    OrderIsSound(w, s, maxFetch * 2 / 3);
    var paths, order, start := w.assign(s.tids, s.matched), NewestFirst(s.matched, s.tids), Rest(s, maxFetch);
    var r := Outcome(HandleAll(w, index, notes.Keys, s.matched, paths, order, start), paths);
    forall t | t in r.index ensures SaysEntry(text, NotesAfter(notes, r), t, r.index[t]) {
      EntrySays(w, text, notes, index, s.matched, paths, order, start, t);
    }
    Ownership(w, index, notes.Keys, s.matched, paths, order, start);
    Agreement(w, index, notes.Keys, s.matched, paths, order, start);
  }

  /** The path assignment gives every thread its own path. */
  ghost predicate OwnPaths(w: World) {
    forall tids, m :: InjectivePaths(w.assign(tids, m))
  }

  // ------------------------------------------------------------ any sequence of runs

  datatype Run = Run(w: World, listed: seq<Listed>, aged: seq<Tid>, maxFetch: nat)

  datatype Folder = Folder(index: Index, notes: map<Path, Content>, cache: map<Tid, Meta>)

  /** `r` is a run that starts from this folder. */
  ghost predicate Possible(f: Folder, r: Run, text: Text) {
    (forall t :: t in r.aged <==> t in f.index) && Assigns(r.w) && OwnPaths(r.w) && Honest(r.w, text)
  }

  function AfterRun(f: Folder, r: Run): Folder
    requires (forall t :: t in r.aged ==> t in f.index) && Assigns(r.w)
  {
    var p := RunGmail(r.w, f.index, f.notes.Keys, r.listed, r.aged, r.maxFetch, f.cache);
    var out := Outcome(p.progress, p.paths);
    Folder(out.index, NotesAfter(f.notes, out), p.progress.cache)
  }

  /** The folders before and after each of a sequence of runs. */
  ghost predicate Runs(folders: seq<Folder>, runs: seq<Run>, text: Text) {
    && |folders| == |runs| + 1 && folders[0] == Folder(map[], map[], map[])
    && forall i :: 0 <= i < |runs| ==> Possible(folders[i], runs[i], text) && folders[i + 1] == AfterRun(folders[i], runs[i])
  }

  /** From an empty folder, through any runs with any budgets, every indexed note says what its entry records. */
  lemma {:induction false} EveryRunIsTruthful(folders: seq<Folder>, runs: seq<Run>, text: Text, i: nat)
    requires Runs(folders, runs, text) && i < |folders|
    ensures Truthful(text, folders[i].notes, folders[i].index) && InjectiveIndex(folders[i].index)
  {
    if i > 0 {
      EveryRunIsTruthful(folders, runs, text, i - 1);
      var f, r := folders[i - 1], runs[i - 1];
      assert Possible(f, r, text);
      RunIsTruthful(r.w, text, f.notes, f.index, r.listed, r.aged, r.maxFetch, f.cache);
    }
  }
}
