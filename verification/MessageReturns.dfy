// Runs that die under a signature that does not stay: the committed one comes
// back, with notes of the dead run in the folder. When does the thread end as one
// full render of the history?

module MessageReturns {
  import opened Messages
  import opened MessageSync
  import opened MessageRuns

  // ------------------------------------------------------------ runs from any folder

  /** Every month before the cursor's, from month `b` on, is right. */
  ghost predicate RightFrom(su: Setup, h: History, c: Committed, b: nat) {
    Clean(su, c) && b <= Base(su, c.st) && forall k: nat :: b <= k < Base(su, c.st) ==> Right(su, h, c, k)
  }

  ghost predicate RightBelow(su: Setup, h: History, c: Committed, b: nat) {
    forall k: nat :: k < b ==> Right(su, h, c, k)
  }

  /** The months before `b` are the same in both. */
  ghost predicate SameBelow(c: Committed, c': Committed, b: nat) {
    forall k: nat :: k < b ==> SameEntry(c.tree, c'.tree, k) && SameEntry(c.st.months, c'.st.months, k)
  }

  /** Month `k` after a sync that leaves `c'`: untouched before `b`, right from there up to the new cursor. */
  ghost predicate MonthSynced(su: Setup, h: History, c: Committed, c': Committed, b: nat, k: nat) {
    && ((k in c'.tree || k in c'.st.months) ==> k >= Floor(su))
    && (k < b ==> SameEntry(c.tree, c'.tree, k) && SameEntry(c.st.months, c'.st.months, k))
    && (k >= b && (c'.st.pending ==> k < Base(su, c'.st)) ==> Right(su, h, c', k))
  }

  lemma SyncedMonth(su: Setup, h: History, c: Committed, budget: nat, b: nat, k: nat)
    requires ValidSetup(su) && ValidHistory(su.cal, h) && RightFrom(su, h, c, b)
    ensures var s := SyncNow(su, h, c, c.st.sig, budget);
            MonthSynced(su, h, c, Committed(s.state, Applied(c.tree, s)), b, k)
  {
    CursorMoves(su, h, c, budget);
    SyncEffect(su.cal, RenderAs(su, c.st.sig), su.page, h, c.st, budget, su.since, c.tree, k);
    if b <= k < Base(su, c.st) { assert Right(su, h, c, k); }
  }

  lemma AllMonthsSynced(su: Setup, h: History, c: Committed, c': Committed, b: nat)
    requires forall k: nat :: MonthSynced(su, h, c, c', b, k)
    requires RightFrom(su, h, c, b) && CursorOk(su.cal, c'.st, su.since) && Base(su, c.st) <= Base(su, c'.st)
    ensures RightFrom(su, h, c', b) && SameBelow(c, c', b)
    ensures !c'.st.pending ==> forall k: nat :: k >= b ==> Right(su, h, c', k)
  {
    forall k: nat ensures (k in c'.tree || k in c'.st.months) ==> k >= Floor(su)
                  ensures k < b ==> SameEntry(c.tree, c'.tree, k) && SameEntry(c.st.months, c'.st.months, k)
    {
      assert MonthSynced(su, h, c, c', b, k);
    }
    forall k: nat | k >= b && (c'.st.pending ==> k < Base(su, c'.st)) ensures Right(su, h, c', k) {
      assert MonthSynced(su, h, c, c', b, k);
    }
  }

  lemma CursorMoves(su: Setup, h: History, c: Committed, budget: nat)
    requires ValidSetup(su) && ValidHistory(su.cal, h) && Clean(su, c)
    ensures var next := SyncNow(su, h, c, c.st.sig, budget).state;
            var cutoff := Cutoff(FetchAll(su.cal, h, su.page, budget, From(c.st, su.since)));
            && next.sig == c.st.sig && CursorOk(su.cal, next, su.since) && Base(su, c.st) <= Base(su, next)
            && next.pending == cutoff.Some? && (next.pending ==> Base(su, next) == su.cal.month(cutoff.value))
  {
    if SyncNow(su, h, c, c.st.sig, budget).state.pending {
      PendingAdvances(su, h, c.st, c.st.sig, budget, c.tree.Keys);
    } else {
      DoneCursor(su, h, c.st, c.st.sig, budget, c.tree.Keys);
    }
  }

  lemma FinishedFrom(su: Setup, h: History, c: Committed, budget: nat, b: nat)
    requires ValidSetup(su) && ValidHistory(su.cal, h) && RightFrom(su, h, c, b)
    ensures var s := SyncNow(su, h, c, c.st.sig, budget);
            var c' := Committed(s.state, Applied(c.tree, s));
            && c'.st.sig == c.st.sig && RightFrom(su, h, c', b) && SameBelow(c, c', b)
            && (!s.state.pending ==> forall k: nat :: k >= b ==> Right(su, h, c', k))
  {
    var s := SyncNow(su, h, c, c.st.sig, budget);
    CursorMoves(su, h, c, budget);
    forall k: nat ensures MonthSynced(su, h, c, Committed(s.state, Applied(c.tree, s)), b, k) {
      SyncedMonth(su, h, c, budget, b, k);
    }
    AllMonthsSynced(su, h, c, Committed(s.state, Applied(c.tree, s)), b);
  }

  lemma DeadKeeps(su: Setup, c: Committed, r: Run, mid: Notes, k: nat)
    requires ValidSetup(su) && ValidHistory(su.cal, r.h) && Clean(su, c) && r.sig == c.st.sig
    requires Partial(c.tree, Applied(c.tree, SyncNow(su, r.h, c, r.sig, r.budget)), mid)
    ensures k < Base(su, c.st) ==> SameEntry(c.tree, mid, k)
    ensures k in mid ==> k >= Floor(su)
  {
    SyncEffect(su.cal, RenderAs(su, r.sig), su.page, r.h, c.st, r.budget, su.since, c.tree, k);
    assert SameEntry(mid, c.tree, k) || SameEntry(mid, Applied(c.tree, SyncNow(su, r.h, c, r.sig, r.budget)), k);
  }

  lemma DiedFrom(su: Setup, c: Committed, r: Run, mid: Notes, b: nat)
    requires ValidSetup(su) && ValidHistory(su.cal, r.h) && RightFrom(su, r.h, c, b) && r.sig == c.st.sig
    requires Partial(c.tree, Applied(c.tree, SyncNow(su, r.h, c, r.sig, r.budget)), mid)
    ensures RightFrom(su, r.h, Committed(c.st, mid), b) && SameBelow(c, Committed(c.st, mid), b)
  {
    forall k: nat ensures k < Base(su, c.st) ==> SameEntry(c.tree, mid, k)
                  ensures k in mid ==> k >= Floor(su)
    {
      DeadKeeps(su, c, r, mid, k);
    }
    forall k: nat | b <= k < Base(su, c.st) ensures Right(su, r.h, Committed(c.st, mid), k) {
      assert Right(su, r.h, c, k) && SameEntry(c.tree, mid, k);
    }
  }

  /** One run under the committed signature, however it ends, leaves the months before `b` alone. */
  lemma OneRunFrom(su: Setup, c: Committed, r: Run, c': Committed, b: nat)
    requires ValidSetup(su) && ValidHistory(su.cal, r.h) && RightFrom(su, r.h, c, b)
    requires r.sig == c.st.sig && Step(su, c, r, c')
    ensures c'.st.sig == r.sig && RightFrom(su, r.h, c', b) && SameBelow(c, c', b)
    ensures r.ending.Finished? && !c'.st.pending ==> forall k: nat :: k >= b ==> Right(su, r.h, c', k)
  {
    match r.ending {
      case Idle =>
      case Finished => FinishedFrom(su, r.h, c, r.budget, b);
      case Died(mid) => DiedFrom(su, c, r, mid, b);
    }
  }

  lemma SameBelowRight(su: Setup, h: History, c: Committed, c': Committed, b: nat)
    requires SameBelow(c, c', b) && c.st.sig == c'.st.sig
    ensures RightBelow(su, h, c, b) <==> RightBelow(su, h, c', b)
  {
    forall k: nat | k < b ensures Right(su, h, c, k) <==> Right(su, h, c', k) {
      assert SameEntry(c.tree, c'.tree, k) && SameEntry(c.st.months, c'.st.months, k);
    }
  }

  /** A history changed from the cursor's month on asks the same of the months before. */
  lemma ChangeFrom(su: Setup, h: History, h': History, c: Committed, b: nat)
    requires ValidSetup(su) && ValidHistory(su.cal, h) && ValidHistory(su.cal, h')
    requires RightFrom(su, h, c, b) && ChangedFrom(su, h, h', Base(su, c.st))
    ensures RightFrom(su, h', c, b) && (RightBelow(su, h, c, b) <==> RightBelow(su, h', c, b))
  {
    forall k: nat | k < Base(su, c.st) ensures Right(su, h, c, k) <==> Right(su, h', c, k) {
      EarlierPagesStay(su, c.st.sig, h, h', Base(su, c.st), k);
    }
  }

  /** All runs use the signature that is committed at the start. */
  ghost predicate OneSignature(states: seq<Committed>, runs: seq<Run>)
    requires states != []
  {
    forall i :: 0 <= i < |runs| ==> runs[i].sig == states[0].st.sig
  }

  /** From one run to the next the months before `b` are as right, or as wrong, as they were. */
  lemma NextFrom(su: Setup, c: Committed, r: Run, c': Committed, next: Run, b: nat)
    requires ValidSetup(su) && ValidHistory(su.cal, r.h) && RightFrom(su, r.h, c, b) && r.sig == c.st.sig == next.sig
    requires Step(su, c, r, c') && Continues(su, c, r, c', next)
    ensures ValidHistory(su.cal, next.h) && c'.st.sig == r.sig && RightFrom(su, next.h, c', b)
    ensures RightBelow(su, next.h, c', b) <==> RightBelow(su, r.h, c, b)
  {
    OneRunFrom(su, c, r, c', b);
    SameBelowRight(su, r.h, c, c', b);
    ChangeFrom(su, r.h, next.h, c', b);
  }

  /** Before run `i` the months before `b` are as right, or as wrong, as they were before the first. */
  ghost predicate AsFirst(su: Setup, states: seq<Committed>, runs: seq<Run>, i: nat, b: nat)
    requires i < |runs| < |states|
  {
    && ValidHistory(su.cal, runs[i].h) && states[i].st.sig == states[0].st.sig && RightFrom(su, runs[i].h, states[i], b)
    && (RightBelow(su, runs[i].h, states[i], b) <==> RightBelow(su, runs[0].h, states[0], b))
  }

  lemma {:induction false} RunsFrom(su: Setup, states: seq<Committed>, runs: seq<Run>, i: nat)
    requires ValidSetup(su) && Execution(su, states, runs) && OneSignature(states, runs) && i < |runs|
    requires ValidHistory(su.cal, runs[0].h) && Clean(su, states[0])
    ensures AsFirst(su, states, runs, i, Base(su, states[0].st))
  {
    if i > 0 {
      RunsFrom(su, states, runs, i - 1);
      assert Continues(su, states[i - 1], runs[i - 1], states[i], runs[i]);
      NextFrom(su, states[i - 1], runs[i - 1], states[i], runs[i], Base(su, states[0].st));
    }
  }

  /**
   * From any folder, however it came about, through any runs under the committed
   * signature that finish, idle or die, over a history that changes from the
   * cursor's month on: one that finishes without a cutoff leaves exactly one full
   * render if and only if every month before the first cursor's was right.
   */
  lemma EndsExactIff(su: Setup, states: seq<Committed>, runs: seq<Run>, i: nat)
    requires ValidSetup(su) && Execution(su, states, runs) && OneSignature(states, runs) && i < |runs|
    requires ValidHistory(su.cal, runs[0].h) && Clean(su, states[0])
    requires runs[i].ending.Finished? && !states[i + 1].st.pending
    ensures Exact(su, runs[i].h, states[i + 1]) <==> RightBelow(su, runs[0].h, states[0], Base(su, states[0].st))
  {
    var b := Base(su, states[0].st);
    RunsFrom(su, states, runs, i);
    OneRunFrom(su, states[i], runs[i], states[i + 1], b);
    SameBelowRight(su, runs[i].h, states[i], states[i + 1], b);
  }

  // ------------------------------------------------------------ a signature that comes back

  /** The folder after the notes of some months were pushed. */
  function Pushed(before: Notes, after: Notes, months: set<nat>): Notes {
    map k | k in before.Keys + after.Keys && k in (if k in months then after else before) ::
      (if k in months then after else before)[k]
  }

  lemma PushedAt(before: Notes, after: Notes, months: set<nat>, k: nat)
    ensures SameEntry(Pushed(before, after, months), if k in months then after else before, k)
  {
  }

  /** Every half-pushed folder comes from pushing the notes of some months. */
  lemma PartialIsPushed(before: Notes, after: Notes, mid: Notes) returns (months: set<nat>)
    requires Partial(before, after, mid)
    ensures mid == Pushed(before, after, months)
  {
    months := set k | k in mid.Keys + before.Keys && !SameEntry(mid, before, k);
    forall k: nat ensures SameEntry(mid, Pushed(before, after, months), k) {
      PushedAt(before, after, months, k);
      assert SameEntry(mid, before, k) || SameEntry(mid, after, k);
      assert k !in mid && k !in before ==> SameEntry(mid, before, k);
    }
    SameNotes(mid, Pushed(before, after, months));
  }

  lemma PushedIsPartial(before: Notes, after: Notes, months: set<nat>)
    ensures Partial(before, after, Pushed(before, after, months))
  {
    forall k ensures SameEntry(Pushed(before, after, months), before, k) || SameEntry(Pushed(before, after, months), after, k) {
      PushedAt(before, after, months, k);
    }
  }

  /** The run under `sig` renders month `k`. */
  ghost predicate Renders(su: Setup, h: History, c: Committed, sig: string, budget: nat, k: nat)
    requires su.page > 0
  {
    var from := From(Refreshed(c.st, sig), su.since);
    Inside(su.cal, from, Cutoff(FetchAll(su.cal, h, su.page, budget, from)), k)
  }

  /** The month has the same text in the dead run and under the committed signature. */
  ghost predicate SameText(su: Setup, dead: History, a: string, h: History, b: string, k: nat) {
    var p, q := FullPage(su.cal, RenderAs(su, a), dead, su.since, k), FullPage(su.cal, RenderAs(su, b), h, su.since, k);
    p.Some? == q.Some? && (p.Some? ==> p.value.text == q.value.text)
  }

  lemma PushedRight(su: Setup, h: History, c: Committed, dead: History, sig: string, budget: nat, months: set<nat>, k: nat)
    requires ValidSetup(su) && ValidHistory(su.cal, dead) && Clean(su, c) && Right(su, h, c, k) && sig != c.st.sig
    ensures var mid := Pushed(c.tree, Applied(c.tree, SyncNow(su, dead, c, sig, budget)), months);
      Right(su, h, Committed(c.st, mid), k) <==>
      (k in months && Renders(su, dead, c, sig, budget, k) ==> SameText(su, dead, sig, h, c.st.sig, k))
  {
    var st := Refreshed(c.st, sig);
    PushedAt(c.tree, Applied(c.tree, SyncNow(su, dead, c, sig, budget)), months, k);
    SyncEffect(su.cal, RenderAs(su, sig), su.page, dead, st, budget, su.since, c.tree, k);
  }

  /** What the dead run leaves is clean. */
  lemma PushedClean(su: Setup, c: Committed, dead: History, sig: string, budget: nat, months: set<nat>)
    requires ValidSetup(su) && ValidHistory(su.cal, dead) && Clean(su, c) && sig != c.st.sig
    ensures var mid := Pushed(c.tree, Applied(c.tree, SyncNow(su, dead, c, sig, budget)), months);
      && Clean(su, Committed(c.st, mid))
      && Step(su, c, Run(dead, sig, budget, Died(mid)), Committed(c.st, mid))
  {
    var after := Applied(c.tree, SyncNow(su, dead, c, sig, budget));
    var mid := Pushed(c.tree, after, months);
    PushedIsPartial(c.tree, after, months);
    DiedSync(su, c, Run(dead, sig, budget, Died(mid)), mid);
  }

  /**
   * A run under another signature died after pushing the notes of some months,
   * and the committed signature comes back: the thread is not due and keeps
   * what the dead run wrote. It is exact if and only if every pushed month that
   * the dead run rendered reads the same under both signatures.
   */
  lemma SignatureComesBack(su: Setup, h: History, c: Committed, dead: History, sig: string, budget: nat, months: set<nat>)
    requires ValidSetup(su) && ValidHistory(su.cal, dead) && Clean(su, c)
    requires Exact(su, h, c) && !Due(c.st, h) && sig != c.st.sig
    ensures var mid := Pushed(c.tree, Applied(c.tree, SyncNow(su, dead, c, sig, budget)), months);
      && Step(su, c, Run(dead, sig, budget, Died(mid)), Committed(c.st, mid))
      && Step(su, Committed(c.st, mid), Run(h, c.st.sig, budget, Idle), Committed(c.st, mid))
      && (Exact(su, h, Committed(c.st, mid)) <==>
          forall k: nat :: k in months && Renders(su, dead, c, sig, budget, k) ==> SameText(su, dead, sig, h, c.st.sig, k))
  {
    var mid := Pushed(c.tree, Applied(c.tree, SyncNow(su, dead, c, sig, budget)), months);
    PushedClean(su, c, dead, sig, budget, months);
    forall k: nat ensures Right(su, h, Committed(c.st, mid), k) <==>
      (k in months && Renders(su, dead, c, sig, budget, k) ==> SameText(su, dead, sig, h, c.st.sig, k))
    {
      assert Right(su, h, c, k);
      PushedRight(su, h, c, dead, sig, budget, months, k);
    }
  }

  /** Every month before `b` that the dead run pushed reads as it does under the committed signature. */
  ghost predicate Harmless(su: Setup, h: History, c: Committed, dead: History, sig: string, budget: nat, months: set<nat>, b: nat)
    requires su.page > 0
  {
    forall k: nat :: k < b && k in months && Renders(su, dead, c, sig, budget, k) ==> SameText(su, dead, sig, h, c.st.sig, k)
  }

  /**
   * The same in the middle of a backfill, or with anything else left to sync: the
   * dead run wrote months before the committed cursor, and the runs that follow
   * under the committed signature start at the cursor. When one of them finishes
   * without a cutoff, the thread is exact if and only if every month before the
   * cursor that the dead run pushed reads the same under both signatures.
   */
  lemma BackfillAfterReturn(su: Setup, h: History, c: Committed, dead: History, sig: string, budget: nat, months: set<nat>,
                            states: seq<Committed>, runs: seq<Run>, i: nat)
    requires ValidSetup(su) && ValidHistory(su.cal, h) && ValidHistory(su.cal, dead) && Inv(su, h, c) && sig != c.st.sig
    requires Execution(su, states, runs) && OneSignature(states, runs) && i < |runs|
    requires states[0] == Committed(c.st, Pushed(c.tree, Applied(c.tree, SyncNow(su, dead, c, sig, budget)), months))
    requires ValidHistory(su.cal, runs[0].h) && ChangedFrom(su, h, runs[0].h, Base(su, c.st))
    requires runs[i].ending.Finished? && !states[i + 1].st.pending
    ensures Step(su, c, Run(dead, sig, budget, Died(states[0].tree)), states[0])
    ensures Exact(su, runs[i].h, states[i + 1]) <==> Harmless(su, h, c, dead, sig, budget, months, Base(su, c.st))
  {
    var b := Base(su, c.st);
    PushedClean(su, c, dead, sig, budget, months);
    forall k: nat | k < b ensures Right(su, h, states[0], k) <==>
      (k in months && Renders(su, dead, c, sig, budget, k) ==> SameText(su, dead, sig, h, c.st.sig, k))
    {
      assert Right(su, h, c, k);
      PushedRight(su, h, c, dead, sig, budget, months, k);
    }
    assert RightBelow(su, h, states[0], b) <==> Harmless(su, h, c, dead, sig, budget, months, b);
    ChangeFrom(su, h, runs[0].h, states[0], b);
    EndsExactIff(su, states, runs, i);
  }

  /** In particular one sync of the same history, with budget `again`. */
  lemma OneSyncAfterReturn(su: Setup, h: History, c: Committed, sig: string, budget: nat, months: set<nat>,
                           mid: Committed, again: nat, end: Committed)
    requires ValidSetup(su) && ValidHistory(su.cal, h) && Inv(su, h, c) && sig != c.st.sig
    requires mid == Committed(c.st, Pushed(c.tree, Applied(c.tree, SyncNow(su, h, c, sig, budget)), months))
    requires Step(su, mid, Run(h, c.st.sig, again, Finished), end) && !end.st.pending
    ensures Step(su, c, Run(h, sig, budget, Died(mid.tree)), mid)
    ensures Exact(su, h, end) <==> Harmless(su, h, c, h, sig, budget, months, Base(su, c.st))
  {
    BackfillAfterReturn(su, h, c, h, sig, budget, months, [mid, end], [Run(h, c.st.sig, again, Finished)], 0);
  }
}
