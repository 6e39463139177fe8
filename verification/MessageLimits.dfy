// Where the promise of brain-messages stops: runs that leave a thread alone. When
// is the folder still one full render of the history? And examples of folders
// that are not.

module MessageLimits {
  import opened Common
  import opened Messages
  import opened MessageSync
  import opened MessageRuns
  import opened MessageFacts
  import opened MessageReturns

  // ------------------------------------------------------------ what the pages say about the messages

  lemma KeptInOrder(h: History, since: nat)
    ensures InOrder(FullKept(h, since))
  {
    var w := (m: Msg) => Dated(m) && m.date >= since;
    SortInOrder(Flatten(h));
    FilterInOrder(SortMsgs(Flatten(h)), w);
    DedupeInOrder(Filter(SortMsgs(Flatten(h)), w), {});
  }

  lemma FirstOfMonth(cal: Calendar, msgs: seq<Msg>)
    requires msgs != []
    ensures var k := cal.month(msgs[0].date);
      OfMonth(cal, msgs, k) == [msgs[0]] + OfMonth(cal, msgs[1..], k)
    ensures forall j :: j != cal.month(msgs[0].date) ==> OfMonth(cal, msgs, j) == OfMonth(cal, msgs[1..], j)
  {
    var k := cal.month(msgs[0].date);
    SameFilter(msgs[1..], (m: Msg) => cal.month(m.date) == k, (m: Msg) => cal.month(m.date) == k);
  }

  /** A month before the first message's is empty. */
  lemma NothingEarlier(cal: Calendar, msgs: seq<Msg>, k: nat)
    requires cal.Valid() && InOrder(msgs) && (msgs != [] ==> k < cal.month(msgs[0].date))
    ensures OfMonth(cal, msgs, k) == []
  {
    var q := (m: Msg) => cal.month(m.date) == k;
    forall m | m in msgs ensures !q(m) {
      var i :| 0 <= i < |msgs| && msgs[i] == m;
      if i > 0 { assert KeyLeq(msgs[0], msgs[i]); }
      cal.Monotone(msgs[0].date, m.date);
    }
    FilterNone(msgs, q);
  }

  ghost predicate SameMonths(cal: Calendar, a: seq<Msg>, b: seq<Msg>) {
    forall k: nat :: OfMonth(cal, a, k) == OfMonth(cal, b, k)
  }

  lemma SameFirst(cal: Calendar, a: seq<Msg>, b: seq<Msg>)
    requires cal.Valid() && InOrder(a) && InOrder(b) && SameMonths(cal, a, b) && a != []
    ensures b != [] && a[0] == b[0] && SameMonths(cal, a[1..], b[1..])
  {
    var k := cal.month(a[0].date);
    FirstOfMonth(cal, a);
    assert OfMonth(cal, a, k) == OfMonth(cal, b, k) != [];
    if b == [] || k < cal.month(b[0].date) { NothingEarlier(cal, b, k); }
    var l := cal.month(b[0].date);
    FirstOfMonth(cal, b);
    assert OfMonth(cal, a, l) == OfMonth(cal, b, l) != [];
    if l < k { NothingEarlier(cal, a, l); }
    assert k == l;
    assert OfMonth(cal, a, k)[0] == a[0] && OfMonth(cal, b, k)[0] == b[0];
    forall j: nat ensures OfMonth(cal, a[1..], j) == OfMonth(cal, b[1..], j) {
      assert OfMonth(cal, a, j) == OfMonth(cal, b, j);
      if j == k {
        assert OfMonth(cal, a[1..], k) == OfMonth(cal, a, k)[1..];
        assert OfMonth(cal, b[1..], k) == OfMonth(cal, b, k)[1..];
      }
    }
  }

  /** Messages in order are determined by their months. */
  lemma {:induction false} MonthsDetermine(cal: Calendar, a: seq<Msg>, b: seq<Msg>)
    requires cal.Valid() && InOrder(a) && InOrder(b) && SameMonths(cal, a, b)
    ensures a == b
  {
    if a != [] {
      SameFirst(cal, a, b);
      MonthsDetermine(cal, a[1..], b[1..]);
      assert a == [a[0]] + a[1..] && b == [b[0]] + b[1..];
    } else {
      forall k: nat ensures OfMonth(cal, b, k) == [] { assert OfMonth(cal, a, k) == OfMonth(cal, b, k); }
      NoMonths(cal, b);
    }
  }

  lemma NoMonths(cal: Calendar, msgs: seq<Msg>)
    requires forall k: nat :: OfMonth(cal, msgs, k) == []
    ensures msgs == []
  {
    if msgs != [] { FirstOfMonth(cal, msgs); }
  }

  // ------------------------------------------------------------ a run that leaves the thread alone

  /** What a month with these messages shows. */
  function Shown(su: Setup, sig: string, k: nat, mm: seq<Msg>): Option<Page> {
    if mm == [] then None else su.render(sig, k, mm)
  }

  /** A month that has other messages in one list than in the other looks different. */
  ghost predicate TellsApart(su: Setup, sig: string, a: seq<Msg>, b: seq<Msg>) {
    forall k: nat ::
      Shown(su, sig, k, OfMonth(su.cal, a, k)) == Shown(su, sig, k, OfMonth(su.cal, b, k)) ==>
      OfMonth(su.cal, a, k) == OfMonth(su.cal, b, k)
  }

  lemma SamePages(su: Setup, h: History, h': History, c: Committed, k: nat)
    requires Exact(su, h, c)
    ensures Right(su, h', c, k) <==>
      FullPage(su.cal, RenderAs(su, c.st.sig), h', su.since, k) == FullPage(su.cal, RenderAs(su, c.st.sig), h, su.since, k)
  {
    assert Right(su, h, c, k);
  }

  /**
   * A run that leaves the thread alone, because it is not due or because there
   * is no budget left, leaves an exact folder exact if the messages to show are
   * the same as before; and only then, if other messages would look different.
   */
  lemma IdleIsExactIff(su: Setup, h: History, c: Committed, r: Run, c': Committed)
    requires ValidSetup(su) && Exact(su, h, c)
    requires r.sig == c.st.sig && r.ending == Idle && Step(su, c, r, c')
    ensures FullKept(r.h, su.since) == FullKept(h, su.since) ==> Exact(su, r.h, c')
    ensures TellsApart(su, r.sig, FullKept(r.h, su.since), FullKept(h, su.since)) ==>
      (Exact(su, r.h, c') <==> FullKept(r.h, su.since) == FullKept(h, su.since))
  {
    var a, b := FullKept(r.h, su.since), FullKept(h, su.since);
    forall k: nat ensures Right(su, r.h, c', k) <==>
      Shown(su, r.sig, k, OfMonth(su.cal, a, k)) == Shown(su, r.sig, k, OfMonth(su.cal, b, k))
    {
      SamePages(su, h, r.h, c, k);
    }
    if TellsApart(su, r.sig, a, b) && Exact(su, r.h, c') {
      forall k: nat ensures OfMonth(su.cal, a, k) == OfMonth(su.cal, b, k) { assert Right(su, r.h, c', k); }
      KeptInOrder(r.h, su.since);
      KeptInOrder(h, su.since);
      MonthsDetermine(su.cal, a, b);
    }
  }

  // ------------------------------------------------------------ examples

  // Months of 1000 ms, one message synced; a second one dated before it, and one dated after it.

  const EXAMPLE := Setup(Calendar(t => t / 1000, k => k * 1000), 1, 0, (sig, k, mm) => Some(Page(sig, |mm|)))
  const ON_TIME := Msg("a", 1500, 1, "")
  const LATE := Msg("late", 1200, 2, "")
  const NEW := Msg("new", 1600, 2, "")
  const HALFWAY := Committed(ThreadState("", 2000, true, map[1 := 1], 0), map[1 := ""])
  const SYNCED := Committed(ThreadState("", 1000, false, map[1 := 1], 1500), map[1 := ""])

  lemma OneKept(a: Msg)
    requires Dated(a)
    ensures FullKept([[a]], 0) == [a] && Flatten([[a]]) == [a]
  {
    var w := (m: Msg) => Dated(m) && m.date >= 0;
    assert [[a]][1..] == [] && [a][1..] == [];
    assert Flatten([[a]]) == [a] + Flatten([[a]][1..]) == [a];
    assert SortMsgs([a]) == Messages.Insert(a, []) == [a];
    FilterAll([a], w);
    SameFilter([a], w, (m: Msg) => Dated(m) && m.date >= 0);
    assert Dedupe([a], {}) == [a];
  }

  lemma TwoKept(a: Msg, b: Msg)
    requires Dated(a) && a.date < b.date && a.guid != b.guid
    ensures FullKept([[a, b]], 0) == [a, b] && Flatten([[a, b]]) == [a, b]
  {
    var w := (m: Msg) => Dated(m) && m.date >= 0;
    assert [[a, b]][1..] == [] && [a, b][1..] == [b] && [b][1..] == [];
    assert Flatten([[a, b]]) == [a, b] + Flatten([[a, b]][1..]) == [a, b];
    assert SortMsgs([b]) == Messages.Insert(b, []) == [b];
    assert SortMsgs([a, b]) == Messages.Insert(a, [b]) == [a, b];
    FilterAll([a, b], w);
    SameFilter([a, b], w, (m: Msg) => Dated(m) && m.date >= 0);
    assert Dedupe([b], {} + {a.guid}) == [b];
    assert Dedupe([a, b], {}) == [a] + Dedupe([b], {} + {a.guid});
  }

  /** One page, of month 1. */
  lemma OnePage(sig: string, h: History, kept: seq<Msg>, k: nat)
    requires FullKept(h, 0) == kept && kept != [] && forall m :: m in kept ==> EXAMPLE.cal.month(m.date) == 1
    ensures FullPage(EXAMPLE.cal, RenderAs(EXAMPLE, sig), h, 0, k) == if k == 1 then Some(Page(sig, |kept|)) else None
  {
    var q := (m: Msg) => EXAMPLE.cal.month(m.date) == k;
    if k == 1 { FilterAll(kept, q); } else { FilterNone(kept, q); }
    SameFilter(kept, q, (m: Msg) => EXAMPLE.cal.month(m.date) == k);
  }

  lemma SyncedIsExact()
    ensures ValidSetup(EXAMPLE) && Clean(EXAMPLE, SYNCED) && Exact(EXAMPLE, [[ON_TIME]], SYNCED)
    ensures ValidHistory(EXAMPLE.cal, [[ON_TIME]]) && !Due(SYNCED.st, [[ON_TIME]])
  {
    OneKept(ON_TIME);
    forall k: nat ensures Right(EXAMPLE, [[ON_TIME]], SYNCED, k) { OnePage("", [[ON_TIME]], [ON_TIME], k); }
    assert Newest([ON_TIME]) == 1500 by { assert [ON_TIME][1..] == []; }
  }

  lemma StaleWithTwo(a: Msg, b: Msg)
    requires Dated(a) && a.date < b.date && a.guid != b.guid
    requires EXAMPLE.cal.month(a.date) == 1 && EXAMPLE.cal.month(b.date) == 1
    ensures !Exact(EXAMPLE, [[a, b]], SYNCED) && LastMessage([[a, b]]) == b.date
  {
    TwoKept(a, b);
    OnePage("", [[a, b]], [a, b], 1);
    assert !Right(EXAMPLE, [[a, b]], SYNCED, 1);
    assert [a, b][1..] == [b] && [b][1..] == [];
    assert Newest([b]) == b.date;
  }

  /**
   * A message that arrives late, dated no later than `last`, is not noticed: the
   * thread is not due, the run leaves it alone, and it is not exact any more.
   */
  lemma LateMessageIsMissed()
    ensures Exact(EXAMPLE, [[ON_TIME]], SYNCED) && !Due(SYNCED.st, [[LATE, ON_TIME]])
    ensures ChangedFrom(EXAMPLE, [[ON_TIME]], [[LATE, ON_TIME]], Base(EXAMPLE, SYNCED.st))
    ensures Step(EXAMPLE, SYNCED, Run([[LATE, ON_TIME]], "", 1, Idle), SYNCED)
    ensures !Exact(EXAMPLE, [[LATE, ON_TIME]], SYNCED)
  {
    SyncedIsExact();
    StaleWithTwo(LATE, ON_TIME);
    var p := (m: Msg) => EXAMPLE.cal.month(m.date) < 1;
    FilterNone([ON_TIME], p);
    FilterNone([LATE, ON_TIME], p);
    SameFilter([ON_TIME], p, (m: Msg) => EXAMPLE.cal.month(m.date) < 1);
    SameFilter([LATE, ON_TIME], p, (m: Msg) => EXAMPLE.cal.month(m.date) < 1);
  }

  /** A thread that is due but gets no budget ends its run without `pending`, and is not exact. */
  lemma StarvedIsStale()
    ensures Exact(EXAMPLE, [[ON_TIME]], SYNCED) && Due(SYNCED.st, [[ON_TIME, NEW]]) && !SYNCED.st.pending
    ensures Step(EXAMPLE, SYNCED, Run([[ON_TIME, NEW]], "", 0, Idle), SYNCED)
    ensures !Exact(EXAMPLE, [[ON_TIME, NEW]], SYNCED)
  {
    SyncedIsExact();
    StaleWithTwo(ON_TIME, NEW);
  }

  /** A chat of one message, or of fewer than the budget, is never cut off. */
  lemma ShortChatOnce(cal: Calendar, chat: seq<Msg>, page: nat, budget: nat, after: nat)
    requires page > 0 && (|chat| <= 1 || |chat| < budget)
    ensures Cutoff(FetchAll(cal, [chat], page, budget, after)).None?
  {
    var rs := FetchAll(cal, [chat], page, budget, after);
    var r := Fetch(cal, chat, page, AtLeastOne(budget), after);
    var found := Query(chat, after);
    var k := FetchPrefix(cal, found, page, AtLeastOne(budget), 0, []);
    assert |found| <= |chat| by { FilterSize(chat, (m: Msg) => m.date >= after); }
    FilterSize(found[..k], Dated);
    assert r.cutoff.None?;
    assert [chat][1..] == [];
    assert rs == [r] + FetchAll(cal, [], page, budget - |r.msgs|, after) == [r];
  }

  lemma {:induction false} FilterSize(s: seq<Msg>, p: Msg -> bool)
    ensures |Filter(s, p)| <= |s|
  {
    if s != [] { FilterSize(s[1..], p); }
  }

  /** A run under signature "b" pushes the one note and dies, and signature "" comes back. */
  lemma OtherSignatureStays()
    ensures var s := SyncNow(EXAMPLE, [[ON_TIME]], SYNCED, "b", 1);
      var mid := Pushed(SYNCED.tree, Applied(SYNCED.tree, s), {1});
      && Step(EXAMPLE, SYNCED, Run([[ON_TIME]], "b", 1, Died(mid)), Committed(SYNCED.st, mid))
      && Step(EXAMPLE, Committed(SYNCED.st, mid), Run([[ON_TIME]], "", 1, Idle), Committed(SYNCED.st, mid))
      && mid != SYNCED.tree && !Exact(EXAMPLE, [[ON_TIME]], Committed(SYNCED.st, mid))
  {
    var h := [[ON_TIME]];
    var mid := Pushed(SYNCED.tree, Applied(SYNCED.tree, SyncNow(EXAMPLE, h, SYNCED, "b", 1)), {1});
    SyncedIsExact();
    OneKept(ON_TIME);
    OnePage("", h, [ON_TIME], 1);
    OnePage("b", h, [ON_TIME], 1);
    ShortChatOnce(EXAMPLE.cal, [ON_TIME], 1, 1, From(Refreshed(SYNCED.st, "b"), 0));
    assert Renders(EXAMPLE, h, SYNCED, "b", 1, 1) && !SameText(EXAMPLE, h, "b", h, "", 1);
    SignatureComesBack(EXAMPLE, h, SYNCED, h, "b", 1, {1});
  }

  /** The months of one message in month 1 and one in month 2. */
  lemma TwoPages(sig: string, h: History, a: Msg, b: Msg, k: nat)
    requires FullKept(h, 0) == [a, b] && EXAMPLE.cal.month(a.date) == 1 && EXAMPLE.cal.month(b.date) == 2
    ensures FullPage(EXAMPLE.cal, RenderAs(EXAMPLE, sig), h, 0, k) == if k == 1 || k == 2 then Some(Page(sig, 1)) else None
  {
    var q := (m: Msg) => EXAMPLE.cal.month(m.date) == k;
    assert [a, b][1..] == [b] && [b][1..] == [];
    assert Filter([b], q) == if k == 2 then [b] else [];
    assert Filter([a, b], q) == if k == 1 then [a] else if k == 2 then [b] else [];
    SameFilter([a, b], q, (m: Msg) => EXAMPLE.cal.month(m.date) == k);
  }

  lemma HalfwayInv(a: Msg, b: Msg)
    requires Dated(a) && a.date < b.date && a.guid != b.guid
    requires EXAMPLE.cal.month(a.date) == 1 && EXAMPLE.cal.month(b.date) == 2
    ensures ValidSetup(EXAMPLE) && ValidHistory(EXAMPLE.cal, [[a, b]]) && Inv(EXAMPLE, [[a, b]], HALFWAY)
  {
    TwoKept(a, b);
    forall k: nat | k < 2 ensures Right(EXAMPLE, [[a, b]], HALFWAY, k) { TwoPages("", [[a, b]], a, b, k); }
    assert Base(EXAMPLE, HALFWAY.st) == 2;
  }

  lemma HalfwayHarmed(a: Msg, b: Msg)
    requires Dated(a) && a.date < b.date && a.guid != b.guid
    requires EXAMPLE.cal.month(a.date) == 1 && EXAMPLE.cal.month(b.date) == 2
    ensures !Harmless(EXAMPLE, [[a, b]], HALFWAY, [[a, b]], "b", 3, {1}, Base(EXAMPLE, HALFWAY.st))
  {
    var h := [[a, b]];
    ShortChatOnce(EXAMPLE.cal, [a, b], 1, 3, From(Refreshed(HALFWAY.st, "b"), 0));
    TwoKept(a, b);
    TwoPages("", h, a, b, 1);
    TwoPages("b", h, a, b, 1);
    assert Base(EXAMPLE, HALFWAY.st) == 2;
    assert Renders(EXAMPLE, h, HALFWAY, "b", 3, 1) && !SameText(EXAMPLE, h, "b", h, "", 1);
  }

  /**
   * In the middle of a backfill: a run under signature "b" pushes the note of
   * month 1 and dies, and signature "" comes back. The next run ends the backfill
   * from month 2 on, and the thread is not exact.
   */
  lemma OtherSignatureOutlivesBackfill(a: Msg, b: Msg)
    requires Dated(a) && a.date < b.date && a.guid != b.guid
    requires EXAMPLE.cal.month(a.date) == 1 && EXAMPLE.cal.month(b.date) == 2
    ensures var h := [[a, b]];
      var mid := Committed(HALFWAY.st, Pushed(HALFWAY.tree, Applied(HALFWAY.tree, SyncNow(EXAMPLE, h, HALFWAY, "b", 3)), {1}));
      var s := SyncNow(EXAMPLE, h, mid, "", 3);
      var end := Committed(s.state, Applied(mid.tree, s));
      && Inv(EXAMPLE, h, HALFWAY) && Step(EXAMPLE, HALFWAY, Run(h, "b", 3, Died(mid.tree)), mid)
      && Step(EXAMPLE, mid, Run(h, "", 3, Finished), end)
      && !end.st.pending && !Exact(EXAMPLE, h, end)
  {
    var h := [[a, b]];
    var mid := Committed(HALFWAY.st, Pushed(HALFWAY.tree, Applied(HALFWAY.tree, SyncNow(EXAMPLE, h, HALFWAY, "b", 3)), {1}));
    var s := SyncNow(EXAMPLE, h, mid, "", 3);
    var end := Committed(s.state, Applied(mid.tree, s));
    HalfwayInv(a, b);
    HalfwayHarmed(a, b);
    ShortChatOnce(EXAMPLE.cal, [a, b], 1, 3, From(mid.st, 0));
    OneSyncAfterReturn(EXAMPLE, h, HALFWAY, "b", 3, {1}, mid, 3, end);
  }
}
