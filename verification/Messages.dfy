// Messages of one conversation: fetching a chat month by month, merging several
// chats, and what one full render of the whole history is.

module Messages {
  import opened Common

  /** `dateCreated` is in milliseconds, 0 if missing; `row` is the ROWID that breaks ties. */
  datatype Msg = Msg(guid: string, date: nat, row: int, body: string)

  /** The chats of a thread, each as the server lists it: oldest first. */
  type History = seq<seq<Msg>>

  /** Local months: `month` numbers the month of an instant, `start` is a month's first instant. */
  datatype Calendar = Calendar(month: nat -> nat, start: nat -> nat) {
    ghost predicate Valid() {
      forall t: nat, k: nat :: t >= start(k) <==> month(t) >= k
    }

    lemma Monotone(t: nat, u: nat)
      requires Valid() && t <= u
      ensures month(t) <= month(u)
    {
      assert t >= start(month(t));
    }

    lemma Later(t: nat, u: nat)
      requires Valid() && month(t) < month(u)
      ensures t < u
    {
      assert u >= start(month(u)) > t;
    }

    /** The first instant of an instant's month is in the same month. */
    lemma StartOfMonth(t: nat)
      requires Valid()
      ensures start(month(t)) <= t && month(start(month(t))) == month(t)
    {
      assert t >= start(month(t));
      Monotone(start(month(t)), t);
      assert start(month(t)) >= start(month(t));
    }
  }

  predicate Dated(m: Msg) {
    m.date != 0
  }

  ghost predicate ByDate(msgs: seq<Msg>) {
    forall i, j :: 0 <= i < j < |msgs| ==> msgs[i].date <= msgs[j].date
  }

  // ------------------------------------------------------------ fetching one chat

  /** The server's answer to a query from `after` on; 0 means no lower bound. */
  function Query(chat: seq<Msg>, after: nat): seq<Msg> {
    if after == 0 then chat else Filter(chat, (m: Msg) => m.date >= after)
  }

  /** Messages fetched, and the cutoff if the fetch stopped early. */
  datatype Fetched = Fetched(msgs: seq<Msg>, cutoff: Option<nat>)

  function Min(a: nat, b: nat): nat {
    if a < b then a else b
  }

  predicate SecondMonth(cal: Calendar, out: seq<Msg>) {
    out != [] && cal.month(out[|out| - 1].date) > cal.month(out[0].date)
  }

  /** The paging loop, from `offset` on, with `out` fetched so far. */
  function FetchFrom(cal: Calendar, found: seq<Msg>, page: nat, budget: nat, offset: nat, out: seq<Msg>): Fetched
    requires page > 0 && offset <= |found|
    decreases |found| - offset
  {
    var next := Min(offset + page, |found|);
    var more := out + Filter(found[offset..next], Dated);
    if next - offset < page then Fetched(more, None)
    else if |more| >= budget && SecondMonth(cal, more) then
      Fetched(more, Some(cal.start(cal.month(more[|more| - 1].date))))
    else FetchFrom(cal, found, page, budget, next, more)
  }

  function Fetch(cal: Calendar, chat: seq<Msg>, page: nat, budget: nat, after: nat): Fetched
    requires page > 0
  {
    FetchFrom(cal, Query(chat, after), page, budget, 0, [])
  }

  /** `fetch_chat_messages`. */
  method FetchChatMessages(cal: Calendar, chat: seq<Msg>, page: nat, budget: nat, after: nat) returns (r: Fetched)
    requires page > 0
    ensures r == Fetch(cal, chat, page, budget, after)
  {
    var found := Query(chat, after);
    var out, offset := [], 0;
    while true
      invariant offset <= |found|
      invariant FetchFrom(cal, found, page, budget, offset, out) == Fetch(cal, chat, page, budget, after)
      decreases |found| - offset
    {
      var batch := found[offset..Min(offset + page, |found|)];
      out := out + Filter(batch, Dated);
      offset := offset + |batch|;
      if |batch| < page { return Fetched(out, None); }
      if |out| >= budget && SecondMonth(cal, out) {
        return Fetched(out, Some(cal.start(cal.month(out[|out| - 1].date))));
      }
    }
  }

  /** The fetch holds the first `k` messages the server has; a cutoff is the start of its last message's month. */
  ghost predicate Covers(cal: Calendar, found: seq<Msg>, budget: nat, r: Fetched, k: nat) {
    && k <= |found|
    && r.msgs == Filter(found[..k], Dated)
    && (r.cutoff.None? ==> k == |found|)
    && (r.cutoff.Some? ==>
          && SecondMonth(cal, r.msgs) && |r.msgs| >= budget
          && r.cutoff.value == cal.start(cal.month(r.msgs[|r.msgs| - 1].date)))
  }

  lemma NextPage(found: seq<Msg>, offset: nat, next: nat, out: seq<Msg>)
    requires offset <= next <= |found| && out == Filter(found[..offset], Dated)
    ensures out + Filter(found[offset..next], Dated) == Filter(found[..next], Dated)
  {
    assert found[..next] == found[..offset] + found[offset..next];
    FilterConcat(found[..offset], found[offset..next], Dated);
  }

  /** What a fetch returned is a prefix of what the server has. */
  lemma {:induction false} FetchPrefix(cal: Calendar, found: seq<Msg>, page: nat, budget: nat, offset: nat, out: seq<Msg>)
    returns (k: nat)
    requires page > 0 && offset <= |found|
    requires out == Filter(found[..offset], Dated)
    ensures Covers(cal, found, budget, FetchFrom(cal, found, page, budget, offset, out), k)
    decreases |found| - offset
  {
    k := Min(offset + page, |found|);
    var more := out + Filter(found[offset..k], Dated);
    NextPage(found, offset, k, out);
    if k - offset == page && !(|more| >= budget && SecondMonth(cal, more)) {
      k := FetchPrefix(cal, found, page, budget, k, more);
    }
  }

  lemma {:induction false} FilterByDate(msgs: seq<Msg>, p: Msg -> bool)
    requires ByDate(msgs)
    ensures ByDate(Filter(msgs, p))
  {
    if msgs != [] {
      var rest := Filter(msgs[1..], p);
      FilterByDate(msgs[1..], p);
      forall j | 0 <= j < |rest| ensures msgs[0].date <= rest[j].date {
        FilterMember(msgs[1..], p, rest[j]);
        var i :| 1 <= i < |msgs| && msgs[i] == rest[j];
      }
    }
  }

  /** A cutoff lies in a later month than where the fetch began, and not beyond the newest message. */
  lemma CutoffFacts(cal: Calendar, chat: seq<Msg>, page: nat, budget: nat, after: nat)
    requires page > 0 && cal.Valid() && ByDate(chat)
    requires Fetch(cal, chat, page, budget, after).cutoff.Some?
    ensures var cut := Fetch(cal, chat, page, budget, after).cutoff.value;
            && cut > 0 && cal.month(cut) > cal.month(after) && cal.start(cal.month(cut)) == cut
            && exists m :: m in chat && cut <= m.date
  {
    var found := Query(chat, after);
    var r := Fetch(cal, chat, page, budget, after);
    var k := FetchPrefix(cal, found, page, budget, 0, []);
    var first, last := r.msgs[0], r.msgs[|r.msgs| - 1];
    FilterMember(found[..k], Dated, first);
    FilterMember(found[..k], Dated, last);
    assert first in found && last in found;
    InQuery(chat, after, first);
    InQuery(chat, after, last);
    cal.StartOfMonth(last.date);
    cal.Monotone(after, first.date);
  }

  lemma InQuery(chat: seq<Msg>, after: nat, m: Msg)
    ensures m in Query(chat, after) <==> m in chat && m.date >= after
  {
    FilterMember(chat, (m: Msg) => m.date >= after, m);
  }

  lemma FilterPrefix(found: seq<Msg>, k: nat, q: Msg -> bool)
    requires k <= |found| && Filter(found[k..], q) == []
    ensures Filter(found, q) == Filter(found[..k], q)
  {
    assert found == found[..k] + found[k..];
    FilterConcat(found[..k], found[k..], q);
  }

  /** Below the cutoff (everywhere, if there is none) nothing is missing from a fetch. */
  lemma FetchComplete(cal: Calendar, chat: seq<Msg>, page: nat, budget: nat, after: nat, p: Msg -> bool)
    requires page > 0 && cal.Valid() && ByDate(chat)
    requires forall m :: p(m) ==> m.date >= after
    requires forall m, c :: p(m) && Fetch(cal, chat, page, budget, after).cutoff == Some(c) ==> m.date < c
    ensures Filter(Fetch(cal, chat, page, budget, after).msgs, p)
         == Filter(chat, (m: Msg) => Dated(m) && p(m))
  {
    var q := (m: Msg) => Dated(m) && p(m);
    var found := Query(chat, after);
    var r := Fetch(cal, chat, page, budget, after);
    var k := FetchPrefix(cal, found, page, budget, 0, []);
    FilterFilter(found[..k], Dated, p, q);
    if r.cutoff.Some? { BeyondCutoff(cal, chat, page, budget, after, k, q); }
    FilterPrefix(found, k, q);
    QueryThenFilter(chat, after, q);
  }

  lemma BeyondCutoff(cal: Calendar, chat: seq<Msg>, page: nat, budget: nat, after: nat, k: nat, q: Msg -> bool)
    requires page > 0 && cal.Valid() && ByDate(chat)
    requires var r := Fetch(cal, chat, page, budget, after);
             && k <= |Query(chat, after)|
             && r.msgs == Filter(Query(chat, after)[..k], Dated) && r.msgs != []
             && r.cutoff == Some(cal.start(cal.month(r.msgs[|r.msgs| - 1].date)))
    requires forall m :: q(m) ==> m.date < Fetch(cal, chat, page, budget, after).cutoff.value
    ensures Filter(Query(chat, after)[k..], q) == []
  {
    var found := Query(chat, after);
    var r := Fetch(cal, chat, page, budget, after);
    var last := r.msgs[|r.msgs| - 1];
    FilterByDate(chat, (m: Msg) => m.date >= after);
    assert ByDate(found);
    FilterMember(found[..k], Dated, last);
    var i :| 0 <= i < k && found[i] == last;
    cal.StartOfMonth(last.date);
    forall m | m in found[k..] ensures !q(m) {
      var j :| k <= j < |found| && found[j] == m;
      assert found[i].date <= found[j].date;
    }
    FilterNone(found[k..], q);
  }

  lemma QueryThenFilter(chat: seq<Msg>, after: nat, q: Msg -> bool)
    requires forall m :: q(m) ==> m.date >= after
    ensures Filter(Query(chat, after), q) == Filter(chat, q)
  {
    if after != 0 { FilterFilter(chat, (m: Msg) => m.date >= after, q, q); }
  }

  // ------------------------------------------------------------ merging chats

  predicate KeyLeq(a: Msg, b: Msg) {
    a.date < b.date || (a.date == b.date && a.row <= b.row)
  }

  function Insert(x: Msg, s: seq<Msg>): seq<Msg> {
    if s == [] || KeyLeq(x, s[0]) then [x] + s else [s[0]] + Insert(x, s[1..])
  }

  /** `sorted(msgs, key=(date, row))`: stable. */
  function SortMsgs(s: seq<Msg>): seq<Msg> {
    if s == [] then [] else Insert(s[0], SortMsgs(s[1..]))
  }

  ghost predicate InOrder(s: seq<Msg>) {
    forall i, j :: 0 <= i < j < |s| ==> KeyLeq(s[i], s[j])
  }

  lemma {:induction false} InsertMember(x: Msg, s: seq<Msg>, m: Msg)
    ensures m in Insert(x, s) <==> m == x || m in s
  {
    if s != [] && !KeyLeq(x, s[0]) {
      InsertMember(x, s[1..], m);
      assert s == [s[0]] + s[1..];
    }
  }

  lemma {:induction false} InsertInOrder(x: Msg, s: seq<Msg>)
    requires InOrder(s)
    ensures InOrder(Insert(x, s))
  {
    if s != [] && !KeyLeq(x, s[0]) {
      InsertInOrder(x, s[1..]);
      var t := Insert(x, s[1..]);
      forall j | 0 <= j < |t| ensures KeyLeq(s[0], t[j]) {
        InsertMember(x, s[1..], t[j]);
        if t[j] != x { var i :| 1 <= i < |s| && s[i] == t[j]; }
      }
    }
  }

  lemma {:induction false} SortInOrder(s: seq<Msg>)
    ensures InOrder(SortMsgs(s))
  {
    if s != [] {
      SortInOrder(s[1..]);
      InsertInOrder(s[0], SortMsgs(s[1..]));
    }
  }

  lemma {:induction false} SortMember(s: seq<Msg>, m: Msg)
    ensures m in SortMsgs(s) <==> m in s
  {
    if s != [] {
      SortMember(s[1..], m);
      InsertMember(s[0], SortMsgs(s[1..]), m);
      assert s == [s[0]] + s[1..];
    }
  }

  lemma InsertFirst(x: Msg, s: seq<Msg>)
    requires forall m :: m in s ==> KeyLeq(x, m)
    ensures Insert(x, s) == [x] + s
  {
  }

  lemma {:induction false} FilterInsert(x: Msg, s: seq<Msg>, p: Msg -> bool)
    requires InOrder(s)
    ensures Filter(Insert(x, s), p) == if p(x) then Insert(x, Filter(s, p)) else Filter(s, p)
  {
    if s == [] || KeyLeq(x, s[0]) {
      assert ([x] + s)[1..] == s;
      forall m | m in Filter(s, p) ensures KeyLeq(x, m) {
        FilterMember(s, p, m);
        var i :| 0 <= i < |s| && s[i] == m;
      }
      InsertFirst(x, Filter(s, p));
    } else {
      var t := Insert(x, s[1..]);
      assert ([s[0]] + t)[1..] == t;
      FilterInsert(x, s[1..], p);
      if p(s[0]) { assert Filter(s, p)[1..] == Filter(s[1..], p); }
      else if p(x) {
        assert Filter(s, p) == Filter(s[1..], p);
      }
    }
  }

  /** Sorting and filtering commute, because the sort is stable. */
  lemma {:induction false} FilterSort(s: seq<Msg>, p: Msg -> bool)
    ensures Filter(SortMsgs(s), p) == SortMsgs(Filter(s, p))
  {
    if s != [] {
      FilterSort(s[1..], p);
      SortInOrder(s[1..]);
      FilterInsert(s[0], SortMsgs(s[1..]), p);
      if p(s[0]) {
        assert Filter(s, p)[0] == s[0] && Filter(s, p)[1..] == Filter(s[1..], p);
      }
    }
  }

  /** The first message of every guid; `seen` are the guids met so far. */
  function Dedupe(s: seq<Msg>, seen: set<string>): seq<Msg> {
    if s == [] then []
    else if s[0].guid in seen then Dedupe(s[1..], seen)
    else [s[0]] + Dedupe(s[1..], seen + {s[0].guid})
  }

  lemma {:induction false} DedupeMember(s: seq<Msg>, seen: set<string>, m: Msg)
    requires m in Dedupe(s, seen)
    ensures m in s
  {
    if s[0].guid in seen {
      DedupeMember(s[1..], seen, m);
    } else if m != s[0] {
      DedupeMember(s[1..], seen + {s[0].guid}, m);
    }
  }

  /** Dropping repeats and keeping some messages commute, if repeats are kept or dropped together. */
  lemma {:induction false} FilterDedupe(s: seq<Msg>, p: Msg -> bool, seen: set<string>, seen': set<string>)
    requires forall x, y :: x in s && y in s && x.guid == y.guid ==> p(x) == p(y)
    requires forall x :: x in s && p(x) ==> (x.guid in seen <==> x.guid in seen')
    ensures Filter(Dedupe(s, seen), p) == Dedupe(Filter(s, p), seen')
  {
    if s != [] {
      var x, rest := s[0], s[1..];
      assert s == [x] + rest;
      if x.guid in seen {
        FilterDedupe(rest, p, seen, seen');
        if p(x) { assert ([x] + Filter(rest, p))[1..] == Filter(rest, p); }
      } else if p(x) {
        FilterDedupe(rest, p, seen + {x.guid}, seen' + {x.guid});
        assert ([x] + Filter(rest, p))[1..] == Filter(rest, p);
        assert ([x] + Dedupe(rest, seen + {x.guid}))[1..] == Dedupe(rest, seen + {x.guid});
      } else {
        FilterDedupe(rest, p, seen + {x.guid}, seen');
        assert ([x] + Dedupe(rest, seen + {x.guid}))[1..] == Dedupe(rest, seen + {x.guid});
      }
    }
  }

  /** The loop that drops repeated guids and messages outside the window. */
  method KeepLoop(msgs: seq<Msg>, p: Msg -> bool) returns (kept: seq<Msg>)
    ensures kept == Dedupe(Filter(msgs, p), {})
  {
    var seen: set<string> := {};
    kept := [];
    for i := 0 to |msgs|
      invariant kept + Dedupe(Filter(msgs[i..], p), seen) == Dedupe(Filter(msgs, p), {})
    {
      var m := msgs[i];
      assert msgs[i..][0] == m && msgs[i..][1..] == msgs[i + 1..];
      ghost var later := Filter(msgs[i + 1..], p);
      if !p(m) { continue; }
      assert ([m] + later)[1..] == later;
      if m.guid in seen { continue; }
      assert (kept + [m]) + Dedupe(later, seen + {m.guid}) == kept + ([m] + Dedupe(later, seen + {m.guid}));
      seen := seen + {m.guid};
      kept := kept + [m];
    }
    assert msgs[|msgs|..] == [];
  }

  // ------------------------------------------------------------ full render

  /** A rendered month note and the number of messages in it. */
  datatype Page = Page(text: string, count: nat)

  /** `render_month` for a thread under one signature; None if nothing of the month renders. */
  type Renderer = (nat, seq<Msg>) -> Option<Page>

  function OfMonth(cal: Calendar, msgs: seq<Msg>, k: nat): seq<Msg> {
    Filter(msgs, (m: Msg) => cal.month(m.date) == k)
  }

  /** The note of one month, given the messages kept. */
  function PageOf(cal: Calendar, render: Renderer, kept: seq<Msg>, k: nat): Option<Page> {
    var mm := OfMonth(cal, kept, k);
    if mm == [] then None else render(k, mm)
  }

  /** All messages a thread should show: everything since `since`, in order, without repeats. */
  function FullKept(h: History, since: nat): seq<Msg> {
    Dedupe(Filter(SortMsgs(Flatten(h)), (m: Msg) => Dated(m) && m.date >= since), {})
  }

  /** One full render of the whole history: the note of month `k`. */
  function FullPage(cal: Calendar, render: Renderer, h: History, since: nat, k: nat): Option<Page> {
    PageOf(cal, render, FullKept(h, since), k)
  }

  /** A guid names one message: all its copies fall in the same month. */
  ghost predicate GuidsAgree(cal: Calendar, h: History) {
    forall x, y :: x in Flatten(h) && y in Flatten(h) && x.guid == y.guid ==> cal.month(x.date) == cal.month(y.date)
  }

  /** The messages of month `k` that a full render shows depend on that month's messages only. */
  lemma FullSlice(cal: Calendar, h: History, since: nat, k: nat)
    requires GuidsAgree(cal, h)
    ensures OfMonth(cal, FullKept(h, since), k)
         == Dedupe(SortMsgs(Filter(Flatten(h), (m: Msg) => Dated(m) && m.date >= since && cal.month(m.date) == k)), {})
  {
    var all := Flatten(h);
    var p := (m: Msg) => Dated(m) && m.date >= since;
    SliceOfKept(cal, all, p, k);
    FilterSame(all, (m: Msg) => p(m) && cal.month(m.date) == k,
               (m: Msg) => Dated(m) && m.date >= since && cal.month(m.date) == k);
  }

  /** Taking one month out of sorted, filtered, deduplicated messages. */
  lemma SliceOfKept(cal: Calendar, msgs: seq<Msg>, p: Msg -> bool, k: nat)
    requires forall x, y :: x in msgs && y in msgs && x.guid == y.guid ==> cal.month(x.date) == cal.month(y.date)
    ensures OfMonth(cal, Dedupe(Filter(SortMsgs(msgs), p), {}), k)
         == Dedupe(SortMsgs(Filter(msgs, (m: Msg) => p(m) && cal.month(m.date) == k)), {})
  {
    var q := (m: Msg) => cal.month(m.date) == k;
    var both := (m: Msg) => p(m) && cal.month(m.date) == k;
    var sorted := SortMsgs(msgs);
    var windowed := Filter(sorted, p);
    forall x | x in windowed ensures x in msgs {
      FilterMember(sorted, p, x);
      SortMember(msgs, x);
    }
    FilterDedupe(windowed, q, {}, {});
    FilterFilter(sorted, p, q, both);
    FilterSort(msgs, both);
  }
}
