// What one sync fetches, shows and remembers, in terms of the server's messages:
// where a fetch stops, which messages a note shows and in which order, and what
// `last` and the cursor are afterwards.

module MessageFacts {
  import opened Common
  import opened Arithmetic
  import opened Messages
  import opened MessageSync

  // ------------------------------------------------------------ which messages are shown

  /** By date, and by row within one date. */
  predicate Earlier(a: Msg, b: Msg) {
    a.date < b.date || (a.date == b.date && a.row <= b.row)
  }

  ghost predicate Wanted(h: History, since: nat, m: Msg) {
    m in Flatten(h) && m.date != 0 && m.date >= since
  }

  /** The first of several messages with one guid. */
  ghost predicate FirstOf(msgs: seq<Msg>, x: Msg, m: Msg) {
    x in msgs && x.guid == m.guid && Earlier(x, m)
  }

  ghost predicate OneEach(s: seq<Msg>, seen: set<string>) {
    && (forall i :: 0 <= i < |s| ==> s[i].guid !in seen)
    && forall i, j :: 0 <= i < j < |s| ==> s[i].guid != s[j].guid
  }

  lemma {:induction false} DedupeDistinct(s: seq<Msg>, seen: set<string>)
    ensures OneEach(Dedupe(s, seen), seen)
  {
    if s != [] {
      if s[0].guid in seen {
        DedupeDistinct(s[1..], seen);
      } else {
        DedupeDistinct(s[1..], seen + {s[0].guid});
        OneMore(s[0], Dedupe(s[1..], seen + {s[0].guid}), seen);
      }
    }
  }

  lemma OneMore(m: Msg, rest: seq<Msg>, seen: set<string>)
    requires m.guid !in seen && OneEach(rest, seen + {m.guid})
    ensures OneEach([m] + rest, seen)
  {
    forall i | 0 <= i < |rest| ensures rest[i].guid !in seen && rest[i].guid != m.guid {
      assert rest[i].guid !in seen + {m.guid};
    }
  }

  lemma {:induction false} DedupeFirst(s: seq<Msg>, seen: set<string>, m: Msg)
    requires InOrder(s) && m in s && m.guid !in seen
    ensures exists x :: FirstOf(Dedupe(s, seen), x, m)
  {
    var rest := s[1..];
    assert s == [s[0]] + rest;
    if s[0].guid in seen {
      DedupeFirst(rest, seen, m);
      var x :| FirstOf(Dedupe(rest, seen), x, m);
      assert FirstOf(Dedupe(s, seen), x, m);
    } else if s[0].guid == m.guid {
      var i :| 0 <= i < |s| && s[i] == m;
      assert FirstOf(Dedupe(s, seen), s[0], m);
    } else {
      DedupeFirst(rest, seen + {s[0].guid}, m);
      var x :| FirstOf(Dedupe(rest, seen + {s[0].guid}), x, m);
      assert FirstOf(Dedupe(s, seen), x, m);
    }
  }

  lemma {:induction false} DedupeInOrder(s: seq<Msg>, seen: set<string>)
    requires InOrder(s)
    ensures InOrder(Dedupe(s, seen))
  {
    if s != [] {
      DedupeInOrder(s[1..], seen);
      var rest := Dedupe(s[1..], seen + {s[0].guid});
      DedupeInOrder(s[1..], seen + {s[0].guid});
      forall j | 0 <= j < |rest| ensures KeyLeq(s[0], rest[j]) {
        DedupeMember(s[1..], seen + {s[0].guid}, rest[j]);
        var i :| 1 <= i < |s| && s[i] == rest[j];
      }
    }
  }

  lemma {:induction false} FilterInOrder(s: seq<Msg>, p: Msg -> bool)
    requires InOrder(s)
    ensures InOrder(Filter(s, p))
  {
    if s != [] {
      var rest := Filter(s[1..], p);
      FilterInOrder(s[1..], p);
      forall j | 0 <= j < |rest| ensures KeyLeq(s[0], rest[j]) {
        FilterMember(s[1..], p, rest[j]);
        var i :| 1 <= i < |s| && s[i] == rest[j];
      }
    }
  }

  /**
   * A full render shows the messages since `since`, by date and row, each guid
   * once: as the earliest of its copies.
   */
  lemma ShownMessages(h: History, since: nat)
    ensures var kept := FullKept(h, since);
      && (forall i, j :: 0 <= i < j < |kept| ==> Earlier(kept[i], kept[j]) && kept[i].guid != kept[j].guid)
      && (forall m :: m in kept ==> Wanted(h, since, m))
      && (forall m :: Wanted(h, since, m) ==> exists x :: FirstOf(kept, x, m))
  {
    var p := (m: Msg) => Dated(m) && m.date >= since;
    var sorted := SortMsgs(Flatten(h));
    var windowed := Filter(sorted, p);
    SortInOrder(Flatten(h));
    FilterInOrder(sorted, p);
    DedupeInOrder(windowed, {});
    DedupeDistinct(windowed, {});
    var kept := Dedupe(windowed, {});
    forall i, j | 0 <= i < j < |kept| ensures Earlier(kept[i], kept[j]) && kept[i].guid != kept[j].guid {
      assert KeyLeq(kept[i], kept[j]);
    }
    forall m | m in Dedupe(windowed, {}) ensures Wanted(h, since, m) {
      DedupeMember(windowed, {}, m);
      FilterMember(sorted, p, m);
      SortMember(Flatten(h), m);
    }
    forall m | Wanted(h, since, m) ensures exists x :: FirstOf(Dedupe(windowed, {}), x, m) {
      SortMember(Flatten(h), m);
      FilterMember(sorted, p, m);
      DedupeFirst(windowed, {}, m);
    }
  }

  lemma {:induction false} TiesStay(s: seq<Msg>)
    requires forall i, j :: 0 <= i < |s| && 0 <= j < |s| ==> s[i].date == s[j].date && s[i].row == s[j].row
    ensures SortMsgs(s) == s
  {
    if s != [] {
      TiesStay(s[1..]);
      assert s == [s[0]] + s[1..];
    }
  }

  function AtKey(date: nat, row: int): Msg -> bool {
    (m: Msg) => m.date == date && m.row == row
  }

  /** Messages of one date and row stay in the order of the chats. */
  lemma TiesInChatOrder(s: seq<Msg>, date: nat, row: int)
    ensures Filter(SortMsgs(s), AtKey(date, row)) == Filter(s, AtKey(date, row))
  {
    var p := AtKey(date, row);
    var few := Filter(s, p);
    FilterSort(s, p);
    forall i | 0 <= i < |few| ensures p(few[i]) { FilterMember(s, p, few[i]); }
    TiesStay(few);
  }

  // ------------------------------------------------------------ where a fetch stops

  /** After `k` messages the budget is used up and a second month was reached. */
  predicate Full(cal: Calendar, found: seq<Msg>, budget: nat, k: nat)
    requires k <= |found|
  {
    var out := Filter(found[..k], Dated);
    |out| >= budget && SecondMonth(cal, out)
  }

  /** No full number of pages after `from` and up to `to` is where the fetch stops. */
  ghost predicate NoStop(cal: Calendar, found: seq<Msg>, page: nat, budget: nat, from: nat, to: nat)
    requires page > 0 && to <= |found|
  {
    forall k :: from < k <= to && k % page == 0 ==> !Full(cal, found, budget, k)
  }

  /** The fetch stops after the first full number of pages that is enough; without one it gets everything. */
  ghost predicate StopsRight(cal: Calendar, found: seq<Msg>, page: nat, budget: nat, from: nat, r: Fetched)
    requires page > 0
  {
    match r.cutoff
    case None => r.msgs == Filter(found, Dated) && NoStop(cal, found, page, budget, from, |found|)
    case Some(cut) => exists k :: StopsAfter(cal, found, page, budget, from, r.msgs, cut, k)
  }

  ghost predicate StopsAfter(cal: Calendar, found: seq<Msg>, page: nat, budget: nat, from: nat, msgs: seq<Msg>, cut: nat, k: nat)
    requires page > 0
  {
    && from < k <= |found| && k % page == 0 && Full(cal, found, budget, k) && NoStop(cal, found, page, budget, from, k - 1)
    && msgs == Filter(found[..k], Dated) && cut == cal.start(cal.month(msgs[|msgs| - 1].date))
  }

  lemma NextMultiple(page: nat, q: nat, k: nat)
    requires page > 0 && q * page < k < q * page + page
    ensures k % page != 0
  {
    QuotientIs(k, page, q, k - q * page);
  }

  lemma {:induction false} FetchStops(cal: Calendar, found: seq<Msg>, page: nat, budget: nat, q: nat, out: seq<Msg>)
    requires page > 0 && q * page <= |found| && out == Filter(found[..q * page], Dated)
    ensures StopsRight(cal, found, page, budget, q * page, FetchFrom(cal, found, page, budget, q * page, out))
    decreases |found| - q * page
  {
    var offset := q * page;
    var next := Min(offset + page, |found|);
    var more := out + Filter(found[offset..next], Dated);
    NextPage(found, offset, next, out);
    assert (q + 1) * page == offset + page;
    InsidePage(cal, found, page, budget, q, next);
    if next - offset < page {
      assert found[..next] == found;
    } else if Full(cal, found, budget, next) {
      StopHere(cal, found, page, budget, q, more);
    } else {
      FetchStops(cal, found, page, budget, q + 1, more);
      Later(cal, found, page, budget, offset, next, FetchFrom(cal, found, page, budget, next, more));
    }
  }

  lemma StopHere(cal: Calendar, found: seq<Msg>, page: nat, budget: nat, q: nat, msgs: seq<Msg>)
    requires page > 0 && q * page + page <= |found| && Full(cal, found, budget, q * page + page)
    requires msgs == Filter(found[..q * page + page], Dated) && msgs != []
    ensures StopsRight(cal, found, page, budget, q * page, Fetched(msgs, Some(cal.start(cal.month(msgs[|msgs| - 1].date)))))
  {
    var next := q * page + page;
    InsidePage(cal, found, page, budget, q, next);
    assert next == (q + 1) * page;
    QuotientIs(next, page, q + 1, 0);
    assert StopsAfter(cal, found, page, budget, q * page, msgs, cal.start(cal.month(msgs[|msgs| - 1].date)), next);
  }

  /** Within one page nothing stops, and at its end only if that is enough. */
  lemma InsidePage(cal: Calendar, found: seq<Msg>, page: nat, budget: nat, q: nat, next: nat)
    requires page > 0 && q * page <= next <= |found| && next <= q * page + page
    ensures next > q * page ==> NoStop(cal, found, page, budget, q * page, next - 1)
    ensures next < q * page + page || !Full(cal, found, budget, next) ==> NoStop(cal, found, page, budget, q * page, next)
  {
    forall k | q * page < k <= next && k < q * page + page ensures k % page != 0 { NextMultiple(page, q, k); }
  }

  lemma Later(cal: Calendar, found: seq<Msg>, page: nat, budget: nat, from: nat, next: nat, r: Fetched)
    requires page > 0 && from <= next <= |found| && NoStop(cal, found, page, budget, from, next)
    requires StopsRight(cal, found, page, budget, next, r)
    ensures StopsRight(cal, found, page, budget, from, r)
  {
    if r.cutoff.Some? {
      var k :| StopsAfter(cal, found, page, budget, next, r.msgs, r.cutoff.value, k);
      assert StopsAfter(cal, found, page, budget, from, r.msgs, r.cutoff.value, k);
    }
  }

  /** One chat, from `after` on. */
  lemma FetchStopsRight(cal: Calendar, chat: seq<Msg>, page: nat, budget: nat, after: nat)
    requires page > 0
    ensures StopsRight(cal, Query(chat, after), page, budget, 0, Fetch(cal, chat, page, budget, after))
  {
    assert 0 * page == 0;
    FetchStops(cal, Query(chat, after), page, budget, 0, []);
  }

  /** Chat `c` was fetched with the budget that the chats before it left, and at least 1. */
  ghost predicate FetchedInTurn(cal: Calendar, h: History, page: nat, budget: int, after: nat, c: nat, rs: seq<Fetched>)
    requires page > 0
  {
    && c < |h| == |rs|
    && var left := budget - |AllMsgs(rs[..c])|;
       rs[c] == Fetch(cal, h[c], page, if left < 1 then 1 else left, after)
  }

  lemma {:induction false} BudgetOfChat(cal: Calendar, h: History, page: nat, budget: int, after: nat, c: nat)
    requires page > 0 && c < |h|
    ensures FetchedInTurn(cal, h, page, budget, after, c, FetchAll(cal, h, page, budget, after))
  {
    var r := Fetch(cal, h[0], page, AtLeastOne(budget), after);
    if c == 0 {
      FetchAllSize(cal, h, page, budget, after);
    } else {
      BudgetOfChat(cal, h[1..], page, budget - |r.msgs|, after, c - 1);
      InTurnAfter(cal, h, page, budget, after, c, r, FetchAll(cal, h[1..], page, budget - |r.msgs|, after));
    }
  }

  lemma InTurnAfter(cal: Calendar, h: History, page: nat, budget: int, after: nat, c: nat, r: Fetched, rest: seq<Fetched>)
    requires page > 0 && 0 < c < |h| && FetchedInTurn(cal, h[1..], page, budget - |r.msgs|, after, c - 1, rest)
    ensures FetchedInTurn(cal, h, page, budget, after, c, [r] + rest)
  {
    FirstFetched([r] + rest, r, c);
    assert ([r] + rest)[1..] == rest && ([r] + rest)[c] == rest[c - 1] && h[1..][c - 1] == h[c];
  }

  lemma FirstFetched(rs: seq<Fetched>, r: Fetched, c: nat)
    requires 0 < c <= |rs| && rs[0] == r
    ensures |AllMsgs(rs[..c])| == |r.msgs| + |AllMsgs(rs[1..][..c - 1])|
  {
    assert rs[..c][0] == r && rs[..c][1..] == rs[1..][..c - 1];
  }

  // ------------------------------------------------------------ what is remembered

  function Fetchable(from: nat): Msg -> bool {
    (m: Msg) => Dated(m) && m.date >= from
  }

  /** Without a cutoff everything from `from` on was fetched, and nothing else. */
  lemma FetchedAll(cal: Calendar, h: History, page: nat, budget: int, from: nat)
    requires page > 0 && cal.Valid() && forall c :: 0 <= c < |h| ==> ByDate(h[c])
    requires Cutoff(FetchAll(cal, h, page, budget, from)).None?
    ensures AllMsgs(FetchAll(cal, h, page, budget, from)) == Filter(Flatten(h), Fetchable(from))
  {
    var p := Fetchable(from);
    var rs := FetchAll(cal, h, page, budget, from);
    CutoffIsLeast(rs);
    WindowComplete(cal, h, page, budget, from, p);
    forall m | m in AllMsgs(rs) ensures p(m) { FetchedBelong(cal, h, page, budget, from, m); }
    FilterAll(AllMsgs(rs), p);
    FilterSame(Flatten(h), (m: Msg) => Dated(m) && p(m), p);
  }

  lemma {:induction false} NewestIsOne(msgs: seq<Msg>)
    ensures msgs != [] ==> exists m :: m in msgs && m.date == Newest(msgs)
    ensures forall m :: m in msgs ==> m.date <= Newest(msgs)
  {
    if msgs != [] {
      NewestIsOne(msgs[1..]);
      assert msgs == [msgs[0]] + msgs[1..];
      assert msgs[0] in msgs && (msgs[1..] == [] ==> Newest(msgs[1..]) == 0);
      if Newest(msgs) != msgs[0].date && msgs[1..] != [] {
        var m :| m in msgs[1..] && m.date == Newest(msgs[1..]);
        assert m in msgs && Newest(msgs) == Newest(msgs[1..]);
      }
    }
  }

  /** The messages a sync from `from` may show. */
  ghost predicate InReach(h: History, from: nat, since: nat, m: Msg) {
    Wanted(h, since, m) && m.date >= from
  }

  /** `last` is the newest date fetched, or what it was; the cursor starts the month of the newest message shown. */
  ghost predicate Remembers(cal: Calendar, h: History, st: ThreadState, since: nat, next: ThreadState) {
    var from := if st.cursor != 0 then st.cursor else since;
    && next.sig == st.sig && !next.pending
    && next.last >= st.last && (forall m :: m in Flatten(h) && m.date >= from ==> m.date <= next.last)
    && (next.last == st.last || exists m :: m in Flatten(h) && m.date >= from && m.date == next.last)
    && (forall m :: InReach(h, from, since, m) ==> cal.month(m.date) <= cal.month(next.cursor))
    && ((forall m :: !InReach(h, from, since, m)) ==> next.cursor == from)
    && ((exists m :: InReach(h, from, since, m)) ==>
          exists m :: InReach(h, from, since, m) && next.cursor == cal.start(cal.month(m.date)))
  }

  lemma SyncRemembers(cal: Calendar, render: Renderer, page: nat, h: History, st: ThreadState, budget: nat, since: nat,
                      existing: set<nat>)
    requires page > 0 && cal.Valid() && ValidHistory(cal, h)
    ensures var s, from := SyncThread(cal, render, page, h, st, budget, since, existing), From(st, since);
      match Cutoff(FetchAll(cal, h, page, budget, from))
      case None => Remembers(cal, h, st, since, s.state) && s.fetched == |Filter(Flatten(h), Fetchable(from))|
      case Some(cut) => s.state.(months := st.months) == st.(cursor := cut, pending := true)
  {
    var from := From(st, since);
    var rs := FetchAll(cal, h, page, budget, from);
    if Cutoff(rs).None? {
      FetchedAll(cal, h, page, budget, from);
      NewestIsOne(AllMsgs(rs));
      LastRight(cal, h, from, AllMsgs(rs), st.last);
      CursorRight(cal, h, from, since, rs);
    }
  }

  lemma LastRight(cal: Calendar, h: History, from: nat, msgs: seq<Msg>, last: nat)
    requires msgs == Filter(Flatten(h), Fetchable(from))
    ensures var next := Max(Newest(msgs), last);
      && next >= last && (forall m :: m in Flatten(h) && m.date >= from ==> m.date <= next)
      && (next == last || exists m :: m in Flatten(h) && m.date >= from && m.date == next)
  {
    NewestIsOne(msgs);
    forall m ensures m in msgs <==> m in Flatten(h) && Fetchable(from)(m) { FilterMember(Flatten(h), Fetchable(from), m); }
  }

  lemma CursorRight(cal: Calendar, h: History, from: nat, since: nat, rs: seq<Fetched>)
    requires cal.Valid() && GuidsAgree(cal, h) && AllMsgs(rs) == Filter(Flatten(h), Fetchable(from)) && Cutoff(rs).None?
    ensures var kept := Kept(since, rs);
      && (kept == [] <==> forall m :: !InReach(h, from, since, m))
      && (kept != [] ==> InReach(h, from, since, kept[|kept| - 1]))
      && (forall m :: InReach(h, from, since, m) ==> kept != [] && cal.month(m.date) <= cal.month(cal.start(cal.month(kept[|kept| - 1].date))))
  {
    var w := (m: Msg) => InWindow(since, Cutoff(rs), m);
    var sorted := SortMsgs(AllMsgs(rs));
    var windowed, kept := Filter(sorted, w), Kept(since, rs);
    assert kept == Dedupe(windowed, {});
    SortInOrder(AllMsgs(rs));
    FilterInOrder(sorted, w);
    DedupeInOrder(windowed, {});
    forall m ensures m in windowed <==> InReach(h, from, since, m) {
      FilterMember(sorted, w, m);
      SortMember(AllMsgs(rs), m);
      FilterMember(Flatten(h), Fetchable(from), m);
    }
    if kept != [] { DedupeMember(windowed, {}, kept[|kept| - 1]); }
    forall m | InReach(h, from, since, m)
      ensures kept != [] && cal.month(m.date) <= cal.month(cal.start(cal.month(kept[|kept| - 1].date)))
    {
      DedupeFirst(windowed, {}, m);
      var x :| FirstOf(kept, x, m);
      DedupeMember(windowed, {}, x);
      assert cal.month(x.date) == cal.month(m.date);
      NotAfterLast(cal, kept, x);
    }
  }

  lemma NotAfterLast(cal: Calendar, kept: seq<Msg>, x: Msg)
    requires cal.Valid() && InOrder(kept) && x in kept
    ensures cal.month(x.date) <= cal.month(cal.start(cal.month(kept[|kept| - 1].date)))
  {
    var i :| 0 <= i < |kept| && kept[i] == x;
    var last := kept[|kept| - 1];
    if i < |kept| - 1 { assert KeyLeq(kept[i], last); }
    cal.Monotone(x.date, last.date);
    cal.StartOfMonth(last.date);
  }

  /**
   * From the beginning, without `since` and without a cutoff, one sync leaves a
   * full render whatever the folder and the counts were.
   */
  lemma FromScratch(cal: Calendar, render: Renderer, page: nat, h: History, st: ThreadState, budget: nat, tree: Notes, k: nat)
    requires page > 0 && cal.Valid() && ValidHistory(cal, h) && st.cursor == 0
    requires Cutoff(FetchAll(cal, h, page, budget, 0)).None?
    ensures var s := SyncThread(cal, render, page, h, st, budget, 0, tree.Keys);
      && NoteIs(Applied(tree, s), k, FullPage(cal, render, h, 0, k))
      && CountIs(s.state.months, k, FullPage(cal, render, h, 0, k))
      && s.deletions !! s.files.Keys
  {
    SyncEffect(cal, render, page, h, st, budget, 0, tree, k);
  }
}
