// Whole histories of runs of brain-messages over one thread: the folder and the
// committed index, runs that finish, runs that die between commits, new
// messages arriving in between.

module MessageRuns {
  import opened Common
  import opened Messages
  import opened MessageSync

  /** What never changes: the calendar, the page size, `since`, and how a signature renders. */
  datatype Setup = Setup(cal: Calendar, page: nat, since: nat, render: (string, nat, seq<Msg>) -> Option<Page>)

  /** The renderer of one signature. */
  function RenderAs(su: Setup, sig: string): Renderer {
    (k: nat, mm: seq<Msg>) => su.render(sig, k, mm)
  }

  ghost predicate ValidSetup(su: Setup) {
    su.cal.Valid() && su.page > 0
  }

  /** What is committed: the thread's index entry and its folder. */
  datatype Committed = Committed(st: ThreadState, tree: Notes)

  function Floor(su: Setup): nat {
    Low(su.cal, su.since)
  }

  /** The first month that the next sync will render again. */
  function Base(su: Setup, st: ThreadState): nat {
    Low(su.cal, From(st, su.since))
  }

  // ------------------------------------------------------------ the invariant

  /** The cursor is usable and nothing lies before `since`. */
  ghost predicate Clean(su: Setup, c: Committed) {
    && CursorOk(su.cal, c.st, su.since)
    && Floor(su) <= Base(su, c.st)
    && (forall k :: k in c.tree ==> k >= Floor(su))
    && (forall k :: k in c.st.months ==> k >= Floor(su))
  }

  /** Note and count of month `k` are those of one full render of the history. */
  ghost predicate Right(su: Setup, h: History, c: Committed, k: nat) {
    var page := FullPage(su.cal, RenderAs(su, c.st.sig), h, su.since, k);
    NoteIs(c.tree, k, page) && CountIs(c.st.months, k, page)
  }

  /** Every month before that of the cursor is right. */
  ghost predicate Inv(su: Setup, h: History, c: Committed) {
    Clean(su, c) && forall k: nat :: k < Base(su, c.st) ==> Right(su, h, c, k)
  }

  /** Notes and counts are exactly those of one full render of the history. */
  ghost predicate Exact(su: Setup, h: History, c: Committed) {
    forall k: nat :: Right(su, h, c, k)
  }

  /** With the cursor at `since`, there is nothing the invariant asks for. */
  lemma StartOver(su: Setup, h: History, c: Committed)
    requires ValidSetup(su) && Clean(su, c) && c.st.cursor == 0
    ensures Inv(su, h, c)
  {
    forall k: nat | k < Base(su, c.st) ensures Right(su, h, c, k) {
      NothingBeforeFloor(su, c.st.sig, h, k);
    }
  }

  lemma NothingBeforeFloor(su: Setup, sig: string, h: History, k: nat)
    requires ValidSetup(su) && k < Floor(su)
    ensures FullPage(su.cal, RenderAs(su, sig), h, su.since, k) == None
  {
    var kept := FullKept(h, su.since);
    var q := (m: Msg) => su.cal.month(m.date) == k;
    var w := (m: Msg) => Dated(m) && m.date >= su.since;
    forall m | m in kept ensures !q(m) {
      DedupeMember(Filter(SortMsgs(Flatten(h)), w), {}, m);
      FilterMember(SortMsgs(Flatten(h)), w, m);
      su.cal.Monotone(su.since, m.date);
    }
    FilterNone(kept, q);
    SameFilter(kept, q, (m: Msg) => su.cal.month(m.date) == k);
  }

  // ------------------------------------------------------------ the history grows

  /** Nothing changed before month `b`: new, edited or removed messages are all later. */
  ghost predicate ChangedFrom(su: Setup, h: History, h': History, b: nat) {
    |h| == |h'| &&
    forall c :: 0 <= c < |h| ==>
      Filter(h[c], (m: Msg) => su.cal.month(m.date) < b) == Filter(h'[c], (m: Msg) => su.cal.month(m.date) < b)
  }

  lemma {:induction false} FlattenFilter(h: History, h': History, p: Msg -> bool)
    requires |h| == |h'|
    requires forall c :: 0 <= c < |h| ==> Filter(h[c], p) == Filter(h'[c], p)
    ensures Filter(Flatten(h), p) == Filter(Flatten(h'), p)
  {
    if h != [] {
      assert forall c :: 0 <= c < |h[1..]| ==> h[1..][c] == h[c + 1] && h'[1..][c] == h'[c + 1];
      FlattenFilter(h[1..], h'[1..], p);
      FilterConcat(h[0], Flatten(h[1..]), p);
      FilterConcat(h'[0], Flatten(h'[1..]), p);
    }
  }

  /** A month before the change renders as it did. */
  lemma EarlierPagesStay(su: Setup, sig: string, h: History, h': History, b: nat, k: nat)
    requires ValidSetup(su) && ValidHistory(su.cal, h) && ValidHistory(su.cal, h')
    requires ChangedFrom(su, h, h', b) && k < b
    ensures FullPage(su.cal, RenderAs(su, sig), h, su.since, k) == FullPage(su.cal, RenderAs(su, sig), h', su.since, k)
  {
    var p := (m: Msg) => su.cal.month(m.date) < b;
    var q := (m: Msg) => Dated(m) && m.date >= su.since && su.cal.month(m.date) == k;
    forall c | 0 <= c < |h| ensures Filter(h[c], p) == Filter(h'[c], p) {
      SameFilter(h[c], p, (m: Msg) => su.cal.month(m.date) < b);
      SameFilter(h'[c], p, (m: Msg) => su.cal.month(m.date) < b);
    }
    FlattenFilter(h, h', p);
    FilterFilter(Flatten(h), p, q, q);
    FilterFilter(Flatten(h'), p, q, q);
    FullSlice(su.cal, h, su.since, k);
    FullSlice(su.cal, h', su.since, k);
    SameFilter(Flatten(h), q, (m: Msg) => Dated(m) && m.date >= su.since && su.cal.month(m.date) == k);
    SameFilter(Flatten(h'), q, (m: Msg) => Dated(m) && m.date >= su.since && su.cal.month(m.date) == k);
  }

  lemma InvGrows(su: Setup, h: History, h': History, c: Committed)
    requires ValidSetup(su) && ValidHistory(su.cal, h) && ValidHistory(su.cal, h')
    requires Inv(su, h, c) && ChangedFrom(su, h, h', Base(su, c.st))
    ensures Inv(su, h', c)
  {
    forall k: nat | k < Base(su, c.st) ensures Right(su, h', c, k) {
      EarlierPagesStay(su, c.st.sig, h, h', Base(su, c.st), k);
      assert Right(su, h, c, k);
    }
  }

  // ------------------------------------------------------------ one run

  /** `st` as the run uses it: started over if the signature changed. */
  function Refreshed(st: ThreadState, sig: string): ThreadState {
    if st.sig == sig then st else ThreadState(sig, 0, true, st.months, 0)
  }

  /** The date of the newest message of any chat, as the chat list shows it. */
  function LastMessage(h: History): nat {
    Newest(Flatten(h))
  }

  predicate Due(st: ThreadState, h: History) {
    st.pending || LastMessage(h) > st.last
  }

  function SyncNow(su: Setup, h: History, c: Committed, sig: string, budget: nat): Synced
    requires su.page > 0
  {
    SyncThread(su.cal, RenderAs(su, sig), su.page, h, Refreshed(c.st, sig), budget, su.since, c.tree.Keys)
  }

  /**
   * How a run ends: it had no reason or no budget to sync the thread and commits
   * the index; it syncs, commits the content and then the index; or it dies
   * before the index is committed, leaving some content written.
   */
  datatype Ending = Idle | Finished | Died(tree: Notes)

  datatype Run = Run(h: History, sig: string, budget: nat, ending: Ending)

  /** Every note is as it was before the run or as the run writes it. */
  ghost predicate Partial(before: Notes, after: Notes, mid: Notes) {
    forall k :: SameEntry(mid, before, k) || SameEntry(mid, after, k)
  }

  ghost predicate Step(su: Setup, c: Committed, r: Run, c': Committed)
    requires su.page > 0
  {
    var st := Refreshed(c.st, r.sig);
    var s := SyncNow(su, r.h, c, r.sig, r.budget);
    match r.ending
    case Idle => (!Due(st, r.h) || r.budget == 0) && c' == Committed(st, c.tree)
    case Finished => Due(st, r.h) && r.budget > 0 && c' == Committed(s.state, Applied(c.tree, s))
    case Died(mid) => Due(st, r.h) && Partial(c.tree, Applied(c.tree, s), mid) && c' == Committed(c.st, mid)
  }

  /** What a run may rely on: if it uses the committed signature, the invariant holds. */
  ghost predicate Ready(su: Setup, c: Committed, r: Run) {
    ValidHistory(su.cal, r.h) && Clean(su, c) && (r.sig == c.st.sig ==> Inv(su, r.h, c))
  }

  lemma RefreshInv(su: Setup, c: Committed, r: Run)
    requires ValidSetup(su) && Ready(su, c, r)
    ensures Inv(su, r.h, Committed(Refreshed(c.st, r.sig), c.tree))
  {
    if c.st.sig != r.sig { StartOver(su, r.h, Committed(Refreshed(c.st, r.sig), c.tree)); }
  }

  /** A sync that was cut off moves the cursor to a later month, never past the newest message. */
  lemma PendingAdvances(su: Setup, h: History, st: ThreadState, sig: string, budget: nat, existing: set<nat>)
    requires ValidSetup(su) && ValidHistory(su.cal, h) && CursorOk(su.cal, st, su.since) && Floor(su) <= Base(su, st)
    requires SyncThread(su.cal, RenderAs(su, sig), su.page, h, st, budget, su.since, existing).state.pending
    ensures var next := SyncThread(su.cal, RenderAs(su, sig), su.page, h, st, budget, su.since, existing).state;
            var cutoff := Cutoff(FetchAll(su.cal, h, su.page, budget, From(st, su.since)));
            && cutoff == Some(next.cursor) && Base(su, next) == su.cal.month(next.cursor)
            && Base(su, next) > Base(su, st) && next.cursor > From(st, su.since)
            && Base(su, next) <= su.cal.month(LastMessage(h))
            && CursorOk(su.cal, next, su.since)
  {
    var from := From(st, su.since);
    var rs := FetchAll(su.cal, h, su.page, budget, from);
    var cut := Cutoff(rs).value;
    CommonCutoff(su.cal, h, su.page, budget, from);
    var m :| m in Flatten(h) && cut <= m.date;
    NewestIs(Flatten(h), m);
    su.cal.Monotone(cut, LastMessage(h));
    su.cal.Later(from, cut);
  }

  /** A sync that was not cut off leaves a usable cursor, and not in an earlier month. */
  lemma DoneCursor(su: Setup, h: History, st: ThreadState, sig: string, budget: nat, existing: set<nat>)
    requires ValidSetup(su) && ValidHistory(su.cal, h) && CursorOk(su.cal, st, su.since) && Floor(su) <= Base(su, st)
    requires !SyncThread(su.cal, RenderAs(su, sig), su.page, h, st, budget, su.since, existing).state.pending
    ensures var next := SyncThread(su.cal, RenderAs(su, sig), su.page, h, st, budget, su.since, existing).state;
            CursorOk(su.cal, next, su.since) && Base(su, st) <= Base(su, next)
  {
    var from := From(st, su.since);
    var rs := FetchAll(su.cal, h, su.page, budget, from);
    var kept := Kept(su.since, rs);
    var next := SyncThread(su.cal, RenderAs(su, sig), su.page, h, st, budget, su.since, existing).state;
    assert next.cursor == if kept != [] then su.cal.start(su.cal.month(kept[|kept| - 1].date)) else from;
    if kept != [] {
      var m := kept[|kept| - 1];
      KeptMember(su.cal, h, su.page, budget, from, su.since, m);
      su.cal.StartOfMonth(m.date);
      su.cal.Monotone(su.since, m.date);
      su.cal.Monotone(from, m.date);
    }
  }

  lemma {:induction false} NewestIs(msgs: seq<Msg>, m: Msg)
    requires m in msgs
    ensures m.date <= Newest(msgs)
  {
    if m != msgs[0] { NewestIs(msgs[1..], m); }
  }

  /** A finished sync: every month up to the cutoff is right, every month if there was none. */
  lemma FinishedSync(su: Setup, h: History, c: Committed, budget: nat)
    requires ValidSetup(su) && ValidHistory(su.cal, h) && Inv(su, h, c)
    ensures var s := SyncNow(su, h, c, c.st.sig, budget);
            var c' := Committed(s.state, Applied(c.tree, s));
            Inv(su, h, c') && (!s.state.pending ==> Exact(su, h, c'))
  {
    var s := SyncNow(su, h, c, c.st.sig, budget);
    var c' := Committed(s.state, Applied(c.tree, s));
    var cutoff := Cutoff(FetchAll(su.cal, h, su.page, budget, From(c.st, su.since)));
    assert s.state.pending == cutoff.Some? && s.state.sig == c.st.sig;
    if s.state.pending {
      PendingAdvances(su, h, c.st, c.st.sig, budget, c.tree.Keys);
    } else {
      DoneCursor(su, h, c.st, c.st.sig, budget, c.tree.Keys);
    }
    forall k: nat
      ensures (cutoff.Some? ==> k < su.cal.month(cutoff.value)) ==> Right(su, h, c', k)
      ensures (k in c'.tree || k in c'.st.months) ==> k >= Floor(su)
    {
      SyncEffect(su.cal, RenderAs(su, c.st.sig), su.page, h, c.st, budget, su.since, c.tree, k);
      if k < Base(su, c.st) { assert Right(su, h, c, k); }
    }
  }

  /** A run that dies before its index commit keeps the folder clean and everything before the old cursor. */
  lemma DiedSync(su: Setup, c: Committed, r: Run, mid: Notes)
    requires ValidSetup(su) && Ready(su, c, r)
    requires Partial(c.tree, Applied(c.tree, SyncNow(su, r.h, c, r.sig, r.budget)), mid)
    ensures Clean(su, Committed(c.st, mid))
    ensures r.sig == c.st.sig ==> Inv(su, r.h, Committed(c.st, mid))
  {
    var st := Refreshed(c.st, r.sig);
    var s := SyncNow(su, r.h, c, r.sig, r.budget);
    RefreshInv(su, c, r);
    forall k: nat ensures k < Base(su, st) ==> SameEntry(mid, c.tree, k)
                  ensures k in mid ==> k >= Floor(su)
    {
      SyncEffect(su.cal, RenderAs(su, r.sig), su.page, r.h, st, r.budget, su.since, c.tree, k);
      assert SameEntry(mid, c.tree, k) || SameEntry(mid, Applied(c.tree, s), k);
    }
    if r.sig == c.st.sig {
      forall k: nat | k < Base(su, c.st) ensures Right(su, r.h, Committed(c.st, mid), k) {
        assert Right(su, r.h, c, k) && SameEntry(mid, c.tree, k);
      }
    }
  }

  /** One run, however it ends. */
  lemma OneRun(su: Setup, c: Committed, r: Run, c': Committed)
    requires ValidSetup(su) && Ready(su, c, r) && Step(su, c, r, c')
    ensures Clean(su, c')
    ensures !r.ending.Died? ==> c'.st.sig == r.sig && Inv(su, r.h, c')
    ensures r.ending.Died? ==> c'.st == c.st && (r.sig == c.st.sig ==> Inv(su, r.h, c'))
    ensures r.ending.Finished? && !c'.st.pending ==> Exact(su, r.h, c')
  {
    RefreshInv(su, c, r);
    match r.ending {
      case Idle =>
      case Finished => FinishedSync(su, r.h, Committed(Refreshed(c.st, r.sig), c.tree), r.budget);
      case Died(mid) => DiedSync(su, c, r, mid);
    }
  }

  /** A finished run of the real loop: the thread's share of what is committed. */
  method SyncCommitted(su: Setup, r: Run, c: Committed) returns (c': Committed)
    requires su.page > 0 && Due(Refreshed(c.st, r.sig), r.h) && r.budget > 0 && r.ending == Finished
    ensures Step(su, c, r, c')
  {
    var s := SyncThreadLoop(su.cal, RenderAs(su, r.sig), su.page, r.h, Refreshed(c.st, r.sig), r.budget, su.since, c.tree.Keys);
    c' := Committed(s.state, Applied(c.tree, s));
  }

  // ------------------------------------------------------------ whole histories of runs

  /**
   * What may happen from one run to the next: if the next run uses the signature
   * that is committed, nothing before the committed cursor's month has changed,
   * and the run before did not die under another signature.
   */
  ghost predicate Continues(su: Setup, c: Committed, r: Run, c': Committed, next: Run) {
    ValidHistory(su.cal, next.h) &&
    (next.sig == c'.st.sig ==>
      ChangedFrom(su, r.h, next.h, Base(su, c'.st)) && (r.ending.Died? ==> r.sig == c.st.sig))
  }

  ghost predicate Execution(su: Setup, states: seq<Committed>, runs: seq<Run>)
    requires su.page > 0
  {
    && |states| == |runs| + 1
    && (forall i :: 0 <= i < |runs| ==> Step(su, states[i], runs[i], states[i + 1]))
    && (forall i :: 0 <= i < |runs| - 1 ==> Continues(su, states[i], runs[i], states[i + 1], runs[i + 1]))
  }

  lemma NextReady(su: Setup, c: Committed, r: Run, c': Committed, next: Run)
    requires ValidSetup(su) && Ready(su, c, r) && Step(su, c, r, c') && Continues(su, c, r, c', next)
    ensures Ready(su, c', next)
  {
    OneRun(su, c, r, c');
    if next.sig == c'.st.sig { InvGrows(su, r.h, next.h, c'); }
  }

  /** A thread with nothing to sync is exact. */
  ghost predicate Settled(su: Setup, c: Committed, r: Run) {
    r.sig == c.st.sig && !Due(c.st, r.h) ==> Exact(su, r.h, c)
  }

  /** What changes between two runs is newer than the committed `last`, and the newest message does not go away. */
  ghost predicate Noticeable(c': Committed, r: Run, next: Run) {
    next.sig == c'.st.sig ==>
      && LastMessage(r.h) <= LastMessage(next.h) && |r.h| == |next.h|
      && (forall i :: 0 <= i < |r.h| ==> Upto(r.h[i], c'.st.last) == Upto(next.h[i], c'.st.last))
  }

  function Upto(msgs: seq<Msg>, last: nat): seq<Msg> {
    Filter(msgs, (m: Msg) => m.date <= last)
  }

  ghost predicate AllNoticeable(states: seq<Committed>, runs: seq<Run>, i: nat)
    requires i < |runs| < |states|
  {
    forall k :: 0 < k <= i ==> Noticeable(states[k], runs[k - 1], runs[k])
  }

  /** If everything is dated no later than `last`, what changed is nothing. */
  lemma NothingChanged(h: History, h': History, last: nat)
    requires |h| == |h'| && LastMessage(h) <= last && LastMessage(h') <= last
    requires forall i :: 0 <= i < |h| ==> Upto(h[i], last) == Upto(h'[i], last)
    ensures h == h'
  {
    forall i | 0 <= i < |h| ensures h[i] == h'[i] {
      AllUpto(h, i, last);
      AllUpto(h', i, last);
    }
  }

  lemma AllUpto(h: History, i: nat, last: nat)
    requires i < |h| && LastMessage(h) <= last
    ensures Upto(h[i], last) == h[i]
  {
    var p := (m: Msg) => m.date <= last;
    forall m | m in h[i] ensures p(m) { FlattenMember(h, m); NewestIs(Flatten(h), m); }
    FilterAll(h[i], p);
    SameFilter(h[i], p, (m: Msg) => m.date <= last);
  }

  /** A run that ends with nothing to sync leaves the thread exact. */
  lemma EndsSettled(su: Setup, c: Committed, r: Run, c': Committed)
    requires ValidSetup(su) && Ready(su, c, r) && Step(su, c, r, c') && Settled(su, c, r)
    requires !r.ending.Died? && !Due(c'.st, r.h)
    ensures Exact(su, r.h, c')
  {
    OneRun(su, c, r, c');
  }

  lemma StaysSettled(su: Setup, c: Committed, r: Run, c': Committed, next: Run)
    requires ValidSetup(su) && Ready(su, c, r) && Step(su, c, r, c') && Settled(su, c, r)
    requires Continues(su, c, r, c', next) && Noticeable(c', r, next)
    ensures Settled(su, c', next)
  {
    if next.sig == c'.st.sig && !Due(c'.st, next.h) {
      NothingChanged(r.h, next.h, c'.st.last);
      EndsSettled(su, c, r, c');
    }
  }

  /** A thread seen for the first time, with no notes and no cursor, satisfies what an execution starts from. */
  lemma NewThread(su: Setup, sig: string, r: Run)
    requires ValidSetup(su) && ValidHistory(su.cal, r.h)
    ensures var c := Committed(ThreadState(sig, 0, true, map[], 0), map[]);
      Inv(su, r.h, c) && Ready(su, c, r) && Settled(su, c, r)
  {
    StartOver(su, r.h, Committed(ThreadState(sig, 0, true, map[], 0), map[]));
  }

  lemma {:induction false} EveryRunIsReady(su: Setup, states: seq<Committed>, runs: seq<Run>, i: nat)
    requires ValidSetup(su) && Execution(su, states, runs) && i < |runs|
    requires Ready(su, states[0], runs[0])
    ensures Ready(su, states[i], runs[i])
  {
    if i > 0 {
      EveryRunIsReady(su, states, runs, i - 1);
      NextReady(su, states[i - 1], runs[i - 1], states[i], runs[i]);
    }
  }

  lemma NoticedBefore(states: seq<Committed>, runs: seq<Run>, i: nat)
    requires 0 < i < |runs| < |states| && AllNoticeable(states, runs, i)
    ensures AllNoticeable(states, runs, i - 1) && Noticeable(states[i], runs[i - 1], runs[i])
  {
  }

  lemma {:induction false} EveryRunIsSettled(su: Setup, states: seq<Committed>, runs: seq<Run>, i: nat)
    requires ValidSetup(su) && Execution(su, states, runs) && i < |runs|
    requires Ready(su, states[0], runs[0]) && Settled(su, states[0], runs[0]) && AllNoticeable(states, runs, i)
    ensures Settled(su, states[i], runs[i])
  {
    if i > 0 {
      NoticedBefore(states, runs, i);
      EveryRunIsSettled(su, states, runs, i - 1);
      EveryRunIsReady(su, states, runs, i - 1);
      StaysSettled(su, states[i - 1], runs[i - 1], states[i], runs[i]);
    }
  }

  /**
   * Incremental equals full, over every execution, from a new thread through
   * any runs that finish, idle or die between commits. A run that does not die
   * leaves every month before the cursor's right. One that finishes without a
   * cutoff leaves exactly one full render of the history it saw. So does one
   * that ends with nothing to sync, idle or not, if all changes were noticeable.
   */
  lemma EveryRunIsExact(su: Setup, states: seq<Committed>, runs: seq<Run>, i: nat)
    requires ValidSetup(su) && Execution(su, states, runs) && i < |runs|
    requires Ready(su, states[0], runs[0])
    ensures !runs[i].ending.Died? ==> Inv(su, runs[i].h, states[i + 1])
    ensures runs[i].ending.Finished? && !states[i + 1].st.pending ==> Exact(su, runs[i].h, states[i + 1])
    ensures (Settled(su, states[0], runs[0]) && AllNoticeable(states, runs, i)) ==>
      (!runs[i].ending.Died? && !Due(states[i + 1].st, runs[i].h) ==> Exact(su, runs[i].h, states[i + 1]))
  {
    EveryRunIsReady(su, states, runs, i);
    OneRun(su, states[i], runs[i], states[i + 1]);
    if Settled(su, states[0], runs[0]) && AllNoticeable(states, runs, i)
       && !runs[i].ending.Died? && !Due(states[i + 1].st, runs[i].h) {
      EveryRunIsSettled(su, states, runs, i);
      EndsSettled(su, states[i], runs[i], states[i + 1]);
    }
  }

  /** A run repeated after dying between two commits reaches what it would have reached at once. */
  lemma ResumeAfterDeath(su: Setup, h: History, c: Committed, sig: string, budget: nat, mid: Notes)
    requires ValidSetup(su) && ValidHistory(su.cal, h) && Clean(su, c)
    requires Partial(c.tree, Applied(c.tree, SyncNow(su, h, c, sig, budget)), mid)
    ensures var s, again := SyncNow(su, h, c, sig, budget), SyncNow(su, h, Committed(c.st, mid), sig, budget);
            again.state == s.state && Applied(mid, again) == Applied(c.tree, s)
  {
    var s, again := SyncNow(su, h, c, sig, budget), SyncNow(su, h, Committed(c.st, mid), sig, budget);
    var st := Refreshed(c.st, sig);
    var a, b := Applied(mid, again), Applied(c.tree, s);
    forall k: nat ensures SameEntry(a, b, k) {
      SyncEffect(su.cal, RenderAs(su, sig), su.page, h, st, budget, su.since, c.tree, k);
      SyncEffect(su.cal, RenderAs(su, sig), su.page, h, st, budget, su.since, mid, k);
      assert SameEntry(mid, c.tree, k) || SameEntry(mid, b, k);
    }
    SameNotes(a, b);
  }

  lemma SameNotes(a: Notes, b: Notes)
    requires forall k: nat :: SameEntry(a, b, k)
    ensures a == b
  {
    forall k: nat ensures k in a <==> k in b
                  ensures k in a ==> a[k] == b[k] {
      assert SameEntry(a, b, k);
    }
  }

  // ------------------------------------------------------------ the backfill ends

  /** Syncing again and again with the given budgets. */
  function SyncTimes(su: Setup, h: History, c: Committed, budgets: seq<nat>): Committed
    requires su.page > 0
    decreases |budgets|
  {
    if budgets == [] then c
    else
      var s := SyncNow(su, h, c, c.st.sig, budgets[0]);
      SyncTimes(su, h, Committed(s.state, Applied(c.tree, s)), budgets[1..])
  }

  lemma FirstSync(su: Setup, h: History, c: Committed, budgets: seq<nat>, j: nat)
    requires su.page > 0 && j < |budgets|
    ensures var s := SyncNow(su, h, c, c.st.sig, budgets[0]);
      SyncTimes(su, h, c, budgets[..j + 1]) == SyncTimes(su, h, Committed(s.state, Applied(c.tree, s)), budgets[1..][..j])
  {
    assert budgets[..j + 1][1..] == budgets[1..][..j];
  }

  /** With a finite history, at most one sync per month left to fetch is cut off, whatever the budgets. */
  lemma {:induction false} BackfillEnds(su: Setup, h: History, c: Committed, budgets: seq<nat>) returns (i: nat)
    requires ValidSetup(su) && ValidHistory(su.cal, h) && Inv(su, h, c)
    requires |budgets| > 0 && |budgets| + Base(su, c.st) > su.cal.month(LastMessage(h))
    ensures 0 < i <= |budgets|
    ensures !SyncTimes(su, h, c, budgets[..i]).st.pending
    ensures Exact(su, h, SyncTimes(su, h, c, budgets[..i]))
    decreases |budgets|
  {
    var s := SyncNow(su, h, c, c.st.sig, budgets[0]);
    var c' := Committed(s.state, Applied(c.tree, s));
    FinishedSync(su, h, c, budgets[0]);
    if s.state.pending {
      PendingAdvances(su, h, c.st, c.st.sig, budgets[0], c.tree.Keys);
      var j := BackfillEnds(su, h, c', budgets[1..]);
      i := j + 1;
      FirstSync(su, h, c, budgets, j);
    } else {
      i := 1;
      FirstSync(su, h, c, budgets, 0);
    }
  }
}
