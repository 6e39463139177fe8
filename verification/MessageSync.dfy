// The incremental sync of one thread: fetch from the stored cursor on, re-render
// the months that were fetched completely, and move the cursor.

module MessageSync {
  import opened Common
  import opened Messages

  /** A thread's entry in the index file. `sig` stands for everything the rendering depends on. */
  datatype ThreadState = ThreadState(sig: string, cursor: nat, pending: bool, months: map<nat, nat>, last: nat)

  /** The month notes in a thread's folder. */
  type Notes = map<nat, string>

  datatype Synced = Synced(files: Notes, deletions: set<nat>, state: ThreadState, fetched: nat)

  // ------------------------------------------------------------ sync_thread

  function AtLeastOne(budget: int): nat {
    if budget < 1 then 1 else budget
  }

  /** The fetches of all chats, sharing the budget. */
  function FetchAll(cal: Calendar, h: History, page: nat, budget: int, after: nat): seq<Fetched>
    requires page > 0
  {
    if h == [] then []
    else
      var r := Fetch(cal, h[0], page, AtLeastOne(budget), after);
      [r] + FetchAll(cal, h[1..], page, budget - |r.msgs|, after)
  }

  function AllMsgs(rs: seq<Fetched>): seq<Msg> {
    if rs == [] then [] else rs[0].msgs + AllMsgs(rs[1..])
  }

  /** The earliest cutoff, if any chat was cut off. */
  function Cutoff(rs: seq<Fetched>): Option<nat> {
    if rs == [] then None
    else match (rs[0].cutoff, Cutoff(rs[1..]))
      case (None, rest) => rest
      case (Some(c), None) => Some(c)
      case (Some(c), Some(d)) => Some(Min(c, d))
  }

  function Newest(msgs: seq<Msg>): nat {
    if msgs == [] then 0
    else if msgs[0].date > Newest(msgs[1..]) then msgs[0].date else Newest(msgs[1..])
  }

  /** Where fetching starts: the stored cursor, else `since`. */
  function From(st: ThreadState, since: nat): nat {
    if st.cursor != 0 then st.cursor else since
  }

  /** The first month that is rendered again. */
  function Low(cal: Calendar, from: nat): nat {
    if from != 0 then cal.month(from) else 0
  }

  predicate InWindow(since: nat, cutoff: Option<nat>, m: Msg) {
    m.date >= since && (cutoff.Some? ==> m.date < cutoff.value)
  }

  /** The months that are rendered again. */
  predicate Inside(cal: Calendar, from: nat, cutoff: Option<nat>, k: nat) {
    Low(cal, from) <= k && (cutoff.Some? ==> k < cal.month(cutoff.value))
  }

  function Kept(since: nat, rs: seq<Fetched>): seq<Msg> {
    Dedupe(Filter(SortMsgs(AllMsgs(rs)), (m: Msg) => InWindow(since, Cutoff(rs), m)), {})
  }

  function MonthsOf(cal: Calendar, msgs: seq<Msg>): set<nat> {
    set m | m in msgs :: cal.month(m.date)
  }

  /** The pages rendered from the messages kept. */
  function Pages(cal: Calendar, render: Renderer, kept: seq<Msg>): map<nat, Page> {
    map k | k in MonthsOf(cal, kept) && PageOf(cal, render, kept, k).Some? :: PageOf(cal, render, kept, k).value
  }

  /** The second half of `sync_thread`: pages, deletions and the new state from the messages kept. */
  function Conclude(cal: Calendar, render: Renderer, st: ThreadState, from: nat, rs: seq<Fetched>, kept: seq<Msg>,
                    existing: set<nat>): Synced
  {
    var cutoff, pages := Cutoff(rs), Pages(cal, render, kept);
    var stay := map k | k in st.months && !Inside(cal, from, cutoff, k) :: st.months[k];
    var months := stay + map k | k in pages :: pages[k].count;
    var state :=
      if cutoff.Some? then st.(months := months, cursor := cutoff.value, pending := true)
      else st.(months := months, pending := false, last := Max(Newest(AllMsgs(rs)), st.last),
               cursor := if kept != [] then cal.start(cal.month(kept[|kept| - 1].date)) else from);
    Synced(map k | k in pages :: pages[k].text,
           (set k | k in existing && k !in pages && Inside(cal, from, cutoff, k)),
           state, |AllMsgs(rs)|)
  }

  function SyncThread(cal: Calendar, render: Renderer, page: nat, h: History, st: ThreadState, budget: nat, since: nat,
                      existing: set<nat>): Synced
    requires page > 0
  {
    var from := From(st, since);
    var rs := FetchAll(cal, h, page, budget, from);
    Conclude(cal, render, st, from, rs, Kept(since, rs), existing)
  }

  /** After chats `..i`: what is left to fetch completes the fetch of all. */
  ghost predicate FetchedUpTo(cal: Calendar, page: nat, h: History, budget: nat, from: nat, i: nat, rs: seq<Fetched>, left: int)
    requires page > 0 && i <= |h|
  {
    rs + FetchAll(cal, h[i..], page, left, from) == FetchAll(cal, h, page, budget, from)
  }

  /** The loop of `sync_thread` over the chats. */
  method FetchLoop(cal: Calendar, page: nat, h: History, budget: nat, from: nat) returns (rs: seq<Fetched>)
    requires page > 0
    ensures rs == FetchAll(cal, h, page, budget, from)
  {
    rs := [];
    var fetched := 0;
    assert h[0..] == h;
    for i := 0 to |h|
      invariant FetchedUpTo(cal, page, h, budget, from, i, rs, budget - fetched)
    {
      var r := FetchChatMessages(cal, h[i], page, AtLeastOne(budget - fetched), from);
      FetchStep(cal, page, h, budget, from, i, rs, budget - fetched);
      rs, fetched := rs + [r], fetched + |r.msgs|;
    }
    assert FetchAll(cal, h[|h|..], page, budget - fetched, from) == [];
  }

  lemma FetchStep(cal: Calendar, page: nat, h: History, budget: nat, from: nat, i: nat, rs: seq<Fetched>, left: int)
    requires page > 0 && i < |h| && FetchedUpTo(cal, page, h, budget, from, i, rs, left)
    ensures var r := Fetch(cal, h[i], page, AtLeastOne(left), from);
      FetchedUpTo(cal, page, h, budget, from, i + 1, rs + [r], left - |r.msgs|)
  {
    var r := Fetch(cal, h[i], page, AtLeastOne(left), from);
    assert h[i..][1..] == h[i + 1..];
    Regroup(rs, r, FetchAll(cal, h[i + 1..], page, left - |r.msgs|, from));
  }

  method SyncThreadLoop(cal: Calendar, render: Renderer, page: nat, h: History, st: ThreadState, budget: nat, since: nat,
                        existing: set<nat>) returns (s: Synced)
    requires page > 0
    ensures s == SyncThread(cal, render, page, h, st, budget, since, existing)
  {
    var from := From(st, since);
    var rs := FetchLoop(cal, page, h, budget, from);
    var cutoff := Cutoff(rs);
    var kept := KeepLoop(SortMsgs(AllMsgs(rs)), (m: Msg) => InWindow(since, cutoff, m));
    SameFilter(SortMsgs(AllMsgs(rs)), (m: Msg) => InWindow(since, cutoff, m), (m: Msg) => InWindow(since, Cutoff(rs), m));
    s := Conclude(cal, render, st, from, rs, kept, existing);
  }

  lemma SameFilter(msgs: seq<Msg>, p: Msg -> bool, q: Msg -> bool)
    requires forall m :: p(m) == q(m)
    ensures Filter(msgs, p) == Filter(msgs, q)
  {
    FilterSame(msgs, p, q);
  }

  // ------------------------------------------------------------ the fetched window is complete

  ghost predicate ValidHistory(cal: Calendar, h: History) {
    (forall c :: 0 <= c < |h| ==> ByDate(h[c])) && GuidsAgree(cal, h)
  }

  /** The stored cursor is unset, `since`, or the start of a month. */
  ghost predicate CursorOk(cal: Calendar, st: ThreadState, since: nat) {
    st.cursor == 0 || st.cursor == since || st.cursor == cal.start(cal.month(st.cursor))
  }

  lemma {:induction false} CutoffIsLeast(rs: seq<Fetched>)
    ensures Cutoff(rs).None? <==> forall i :: 0 <= i < |rs| ==> rs[i].cutoff.None?
    ensures forall i :: 0 <= i < |rs| && rs[i].cutoff.Some? ==> Cutoff(rs).Some? && Cutoff(rs).value <= rs[i].cutoff.value
    ensures Cutoff(rs).Some? ==> exists i :: 0 <= i < |rs| && rs[i].cutoff == Cutoff(rs)
  {
    if rs != [] {
      var rest := rs[1..];
      CutoffIsLeast(rest);
      forall i | 0 < i < |rs| ensures rs[i] == rest[i - 1] {}
      if Cutoff(rs).Some? && Cutoff(rs) != rs[0].cutoff {
        var i :| 0 <= i < |rest| && rest[i].cutoff == Cutoff(rest);
        assert rs[i + 1].cutoff == Cutoff(rs);
      }
    }
  }

  lemma {:induction false} FetchAllSize(cal: Calendar, h: History, page: nat, budget: int, after: nat)
    requires page > 0
    ensures |FetchAll(cal, h, page, budget, after)| == |h|
  {
    if h != [] {
      FetchAllSize(cal, h[1..], page, budget - |Fetch(cal, h[0], page, AtLeastOne(budget), after).msgs|, after);
    }
  }

  /** Every chat is fetched with a positive budget. */
  lemma {:induction false} FetchAllIs(cal: Calendar, h: History, page: nat, budget: int, after: nat, c: nat) returns (b: nat)
    requires page > 0 && c < |FetchAll(cal, h, page, budget, after)|
    ensures b > 0 && c < |h| && FetchAll(cal, h, page, budget, after)[c] == Fetch(cal, h[c], page, b, after)
  {
    FetchAllSize(cal, h, page, budget, after);
    if c == 0 {
      b := AtLeastOne(budget);
    } else {
      var rest := budget - |Fetch(cal, h[0], page, AtLeastOne(budget), after).msgs|;
      b := FetchAllIs(cal, h[1..], page, rest, after, c - 1);
    }
  }

  /** Facts about the common cutoff. */
  lemma CommonCutoff(cal: Calendar, h: History, page: nat, budget: int, after: nat)
    requires page > 0 && cal.Valid() && ValidHistory(cal, h)
    requires Cutoff(FetchAll(cal, h, page, budget, after)).Some?
    ensures var cut := Cutoff(FetchAll(cal, h, page, budget, after)).value;
            && cut > 0 && cal.month(cut) > cal.month(after) && cal.start(cal.month(cut)) == cut
            && exists m :: m in Flatten(h) && cut <= m.date
  {
    var rs := FetchAll(cal, h, page, budget, after);
    CutoffIsLeast(rs);
    var i :| 0 <= i < |rs| && rs[i].cutoff == Cutoff(rs);
    var b := FetchAllIs(cal, h, page, budget, after, i);
    CutoffFacts(cal, h[i], page, b, after);
    var m :| m in h[i] && Cutoff(rs).value <= m.date;
    FlattenMember(h, m);
  }

  lemma {:induction false} WindowComplete(cal: Calendar, h: History, page: nat, budget: int, after: nat, p: Msg -> bool)
    requires page > 0 && cal.Valid() && forall c :: 0 <= c < |h| ==> ByDate(h[c])
    requires forall m :: p(m) ==> m.date >= after
    requires forall m, i :: p(m) && 0 <= i < |FetchAll(cal, h, page, budget, after)| ==>
               var cut := FetchAll(cal, h, page, budget, after)[i].cutoff; cut.Some? ==> m.date < cut.value
    ensures Filter(AllMsgs(FetchAll(cal, h, page, budget, after)), p)
         == Filter(Flatten(h), (m: Msg) => Dated(m) && p(m))
  {
    if h != [] {
      var q := (m: Msg) => Dated(m) && p(m);
      var r := Fetch(cal, h[0], page, AtLeastOne(budget), after);
      var rs, rest := FetchAll(cal, h, page, budget, after), FetchAll(cal, h[1..], page, budget - |r.msgs|, after);
      assert rs[0] == r && rs[1..] == rest;
      forall m, c | p(m) && r.cutoff == Some(c) ensures m.date < c { assert rs[0].cutoff == Some(c); }
      FetchComplete(cal, h[0], page, AtLeastOne(budget), after, p);
      forall m, i | p(m) && 0 <= i < |rest| && rest[i].cutoff.Some? ensures m.date < rest[i].cutoff.value {
        assert rs[i + 1] == rest[i];
      }
      WindowComplete(cal, h[1..], page, budget - |r.msgs|, after, p);
      FilterConcat(r.msgs, AllMsgs(rest), p);
      FilterConcat(h[0], Flatten(h[1..]), q);
    }
  }

  lemma FetchBelongs(cal: Calendar, chat: seq<Msg>, page: nat, budget: nat, after: nat, m: Msg)
    requires page > 0 && m in Fetch(cal, chat, page, budget, after).msgs
    ensures m in chat && m.date >= after && Dated(m)
  {
    var found := Query(chat, after);
    var k := FetchPrefix(cal, found, page, budget, 0, []);
    FilterMember(found[..k], Dated, m);
    assert m in found;
    InQuery(chat, after, m);
  }

  lemma {:induction false} FetchedBelong(cal: Calendar, h: History, page: nat, budget: int, after: nat, m: Msg)
    requires page > 0 && m in AllMsgs(FetchAll(cal, h, page, budget, after))
    ensures m in Flatten(h) && m.date >= after && Dated(m)
  {
    var r := Fetch(cal, h[0], page, AtLeastOne(budget), after);
    var rest := FetchAll(cal, h[1..], page, budget - |r.msgs|, after);
    assert FetchAll(cal, h, page, budget, after)[1..] == rest;
    if m in r.msgs {
      FetchBelongs(cal, h[0], page, AtLeastOne(budget), after, m);
    } else {
      FetchedBelong(cal, h[1..], page, budget - |r.msgs|, after, m);
    }
  }

  lemma WindowAfter(cal: Calendar, st: ThreadState, since: nat, m: Msg)
    requires cal.Valid() && CursorOk(cal, st, since)
    requires m.date >= since && Low(cal, From(st, since)) <= cal.month(m.date)
    ensures m.date >= From(st, since)
  {
    var from := From(st, since);
    if from != 0 && from != since { assert m.date >= cal.start(cal.month(from)); }
  }

  /** The messages of one month inside the window: fetched as they are in the history. */
  lemma WindowSlice(cal: Calendar, page: nat, h: History, st: ThreadState, budget: nat, since: nat, k: nat,
                    p: Msg -> bool, full: Msg -> bool)
    requires page > 0 && cal.Valid() && ValidHistory(cal, h) && CursorOk(cal, st, since)
    requires var rs := FetchAll(cal, h, page, budget, From(st, since));
             && Inside(cal, From(st, since), Cutoff(rs), k)
             && forall m :: p(m) <==> InWindow(since, Cutoff(rs), m) && cal.month(m.date) == k
    requires forall m :: full(m) <==> Dated(m) && m.date >= since && cal.month(m.date) == k
    ensures Filter(AllMsgs(FetchAll(cal, h, page, budget, From(st, since))), p) == Filter(Flatten(h), full)
  {
    var from := From(st, since);
    var rs := FetchAll(cal, h, page, budget, from);
    var cutoff := Cutoff(rs);
    forall m | p(m) ensures m.date >= from { WindowAfter(cal, st, since, m); }
    CutoffIsLeast(rs);
    WindowComplete(cal, h, page, budget, from, p);
    forall m | m in Flatten(h) ensures full(m) <==> Dated(m) && p(m) {
      if full(m) && cutoff.Some? && m.date >= cutoff.value { cal.Monotone(cutoff.value, m.date); }
    }
    FilterSame(Flatten(h), full, (m: Msg) => Dated(m) && p(m));
  }

  /** Inside the window the partial sync renders exactly what a full render renders. */
  lemma WindowPage(cal: Calendar, render: Renderer, page: nat, h: History, st: ThreadState, budget: nat, since: nat, k: nat)
    requires page > 0 && cal.Valid() && ValidHistory(cal, h) && CursorOk(cal, st, since)
    requires var rs := FetchAll(cal, h, page, budget, From(st, since)); Inside(cal, From(st, since), Cutoff(rs), k)
    ensures var rs := FetchAll(cal, h, page, budget, From(st, since));
            PageOf(cal, render, Kept(since, rs), k) == FullPage(cal, render, h, since, k)
  {
    var rs := FetchAll(cal, h, page, budget, From(st, since));
    var w := (m: Msg) => InWindow(since, Cutoff(rs), m);
    var p := (m: Msg) => w(m) && cal.month(m.date) == k;
    var full := (m: Msg) => Dated(m) && m.date >= since && cal.month(m.date) == k;
    WindowSlice(cal, page, h, st, budget, since, k, p, full);
    forall x | x in AllMsgs(rs) ensures x in Flatten(h) { FetchedBelong(cal, h, page, budget, From(st, since), x); }
    SliceOfKept(cal, AllMsgs(rs), w, k);
    SameFilter(AllMsgs(rs), (m: Msg) => w(m) && cal.month(m.date) == k, p);
    FullSlice(cal, h, since, k);
    SameFilter(Flatten(h), (m: Msg) => Dated(m) && m.date >= since && cal.month(m.date) == k, full);
    SameFilter(SortMsgs(AllMsgs(rs)), w, (m: Msg) => InWindow(since, Cutoff(rs), m));
  }

  lemma KeptMember(cal: Calendar, h: History, page: nat, budget: int, after: nat, since: nat, m: Msg)
    requires page > 0
    requires m in Kept(since, FetchAll(cal, h, page, budget, after))
    ensures m in Flatten(h) && m.date >= after && m.date >= since
    ensures InWindow(since, Cutoff(FetchAll(cal, h, page, budget, after)), m)
  {
    var rs := FetchAll(cal, h, page, budget, after);
    var w := (m: Msg) => InWindow(since, Cutoff(rs), m);
    DedupeMember(Filter(SortMsgs(AllMsgs(rs)), w), {}, m);
    FilterMember(SortMsgs(AllMsgs(rs)), w, m);
    SortMember(AllMsgs(rs), m);
    FetchedBelong(cal, h, page, budget, after, m);
  }

  /** Nothing outside the window is rendered. */
  lemma PagesInside(cal: Calendar, render: Renderer, page: nat, h: History, st: ThreadState, budget: nat, since: nat, k: nat)
    requires page > 0 && cal.Valid() && ValidHistory(cal, h)
    requires k in Pages(cal, render, Kept(since, FetchAll(cal, h, page, budget, From(st, since))))
    ensures Inside(cal, From(st, since), Cutoff(FetchAll(cal, h, page, budget, From(st, since))), k)
  {
    var from := From(st, since);
    var rs := FetchAll(cal, h, page, budget, from);
    var m :| m in Kept(since, rs) && cal.month(m.date) == k;
    KeptMember(cal, h, page, budget, from, since, m);
    cal.Monotone(from, m.date);
    if Cutoff(rs).Some? {
      CommonCutoff(cal, h, page, budget, from);
      assert m.date >= cal.start(k);
    }
  }

  lemma {:induction false} PageNeedsMonth(cal: Calendar, render: Renderer, kept: seq<Msg>, k: nat)
    ensures PageOf(cal, render, kept, k).Some? <==> k in Pages(cal, render, kept)
  {
    var q := (m: Msg) => cal.month(m.date) == k;
    if PageOf(cal, render, kept, k).Some? {
      var m := OfMonth(cal, kept, k)[0];
      FilterMember(kept, q, m);
      assert k in MonthsOf(cal, kept);
    }
  }

  // ------------------------------------------------------------ what one sync does

  /** The folder after the files are written and the deletions done. */
  function Applied(tree: Notes, s: Synced): Notes {
    (map k | k in tree && k !in s.deletions :: tree[k]) + s.files
  }

  ghost predicate NoteIs(tree: Notes, k: nat, page: Option<Page>) {
    (k in tree <==> page.Some?) && (page.Some? ==> tree[k] == page.value.text)
  }

  ghost predicate CountIs(months: map<nat, nat>, k: nat, page: Option<Page>) {
    (k in months <==> page.Some?) && (page.Some? ==> months[k] == page.value.count)
  }

  ghost predicate SameEntry<T>(a: map<nat, T>, b: map<nat, T>, k: nat) {
    (k in a <==> k in b) && (k in a ==> a[k] == b[k])
  }

  /** One sync: inside its window notes and counts become those of a full render, elsewhere they stay. */
  lemma SyncEffect(cal: Calendar, render: Renderer, page: nat, h: History, st: ThreadState, budget: nat, since: nat,
                   tree: Notes, k: nat)
    requires page > 0 && cal.Valid() && ValidHistory(cal, h) && CursorOk(cal, st, since)
    ensures var s := SyncThread(cal, render, page, h, st, budget, since, tree.Keys);
            var cutoff := Cutoff(FetchAll(cal, h, page, budget, From(st, since)));
            if Inside(cal, From(st, since), cutoff, k) then
              && NoteIs(Applied(tree, s), k, FullPage(cal, render, h, since, k))
              && CountIs(s.state.months, k, FullPage(cal, render, h, since, k))
            else
              && SameEntry(Applied(tree, s), tree, k)
              && SameEntry(s.state.months, st.months, k)
  {
    var from := From(st, since);
    var rs := FetchAll(cal, h, page, budget, from);
    var pages := Pages(cal, render, Kept(since, rs));
    if Inside(cal, from, Cutoff(rs), k) {
      WindowPage(cal, render, page, h, st, budget, since, k);
      PageNeedsMonth(cal, render, Kept(since, rs), k);
    } else if k in pages {
      PagesInside(cal, render, page, h, st, budget, since, k);
    }
  }
}
