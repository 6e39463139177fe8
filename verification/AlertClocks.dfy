// On which clocks does the alert cooldown hold? History is only pruned when it is
// older than `MaxAge`, so a clock that goes back does no harm unless it first
// jumped far enough ahead for an alert to be forgotten.

module AlertClocks {
  import opened Alerts

  /** The clock readings of successive runs; all of them are after 1970. */
  type Clocks = seq<int>

  ghost predicate Positive(ns: Clocks) {
    forall i :: 0 <= i < |ns| ==> ns[i] >= 1
  }

  ghost predicate AtTimes(runs: seq<Run>, ns: Clocks) {
    |runs| == |ns| && forall i :: 0 <= i < |runs| ==> runs[i].now == ns[i]
  }

  /** An alert of run `h` is forgotten in run `i`, and run `j` is within its cooldown. */
  predicate Lapse(p: Policy, ns: Clocks, h: nat, i: nat, j: nat) {
    h < i < j < |ns| && ns[i] - ns[h] > MaxAge(p) && ns[j] - ns[h] < p.cooldown
  }

  ghost predicate Lapses(p: Policy, ns: Clocks) {
    exists h, i, j :: Lapse(p, ns, h, i, j)
  }

  // ------------------------------------------------------------ what is kept

  /** An alert of time `t` was forgotten in one of the first `n` runs. */
  ghost predicate Lost(p: Policy, ns: Clocks, n: nat, t: int) {
    exists h: nat, i: nat :: h < i < n && i < |ns| && ns[h] == t && ns[i] - ns[h] > MaxAge(p)
  }

  ghost predicate FromRun(ns: Clocks, n: nat, t: int) {
    exists h: nat :: h < n && h < |ns| && ns[h] == t
  }

  /** The last alert with its key. */
  ghost predicate Latest(log: seq<Sent>, x: nat) {
    x < |log| && forall y :: x < y < |log| ==> log[y].key != log[x].key
  }

  /** The history holds the alert, or it was forgotten. */
  ghost predicate Held(p: Policy, ns: Clocks, n: nat, history: map<string, int>, a: Sent) {
    (a.key in history && history[a.key] == a.time) || Lost(p, ns, n, a.time)
  }

  ghost predicate ClockInv(p: Policy, ns: Clocks, n: nat, past: Past) {
    && Spaced(p, past.log)
    && (forall x: nat :: x < |past.log| ==> FromRun(ns, n, past.log[x].time))
    && (forall x: nat :: Latest(past.log, x) ==> Held(p, ns, n, past.history, past.log[x]))
  }

  lemma NextRun(p: Policy, ns: Clocks, n: nat, past: Past)
    requires ClockInv(p, ns, n, past)
    ensures ClockInv(p, ns, n + 1, past)
  {
  }

  /** Cleaning the history in run `n` forgets only what `Lost` says. */
  lemma CleanHolds(p: Policy, ns: Clocks, n: nat, past: Past)
    requires n < |ns| && Positive(ns) && ClockInv(p, ns, n + 1, past)
    ensures ClockInv(p, ns, n + 1, past.(history := Cleaned(past.history, ns[n], MaxAge(p))))
  {
    forall x: nat | Latest(past.log, x)
      ensures Held(p, ns, n + 1, Cleaned(past.history, ns[n], MaxAge(p)), past.log[x])
    {
      var t := past.log[x].time;
      assert Held(p, ns, n + 1, past.history, past.log[x]) && FromRun(ns, n + 1, t);
      var h: nat :| h < n + 1 && h < |ns| && ns[h] == t;
      if ns[n] - t > MaxAge(p) { assert h < n && ns[n] - ns[h] > MaxAge(p); }
    }
  }

  lemma {:induction false} LatestOf(log: seq<Sent>, y: nat) returns (x: nat)
    requires y < |log|
    ensures y <= x && Latest(log, x) && log[x].key == log[y].key
    decreases |log| - y
  {
    if z :| y < z < |log| && log[z].key == log[y].key { x := LatestOf(log, z); } else { x := y; }
  }

  /** What is not cooling down was last sent at least a cooldown ago. */
  lemma LongAgo(p: Policy, ns: Clocks, n: nat, past: Past, key: string, y: nat)
    requires ValidPolicy(p) && n < |ns| && Positive(ns) && !Lapses(p, ns) && ClockInv(p, ns, n + 1, past)
    requires !Cooling(p, past.history, ns[n], key) && y < |past.log| && past.log[y].key == key
    ensures ns[n] - past.log[y].time >= p.cooldown
  {
    var x := LatestOf(past.log, y);
    var t := past.log[x].time;
    assert Held(p, ns, n + 1, past.history, past.log[x]) && FromRun(ns, n + 1, t);
    assert ns[n] - t >= p.cooldown by {
      if !(key in past.history && past.history[key] == t) {
        var h: nat, i: nat :| h < i < n + 1 && i < |ns| && ns[h] == t && ns[i] - ns[h] > MaxAge(p);
        if i < n { assert !Lapse(p, ns, h, i, n); }
      }
    }
    if y < x { assert past.log[x].time - past.log[y].time >= p.cooldown; }
  }

  lemma AlertHolds(p: Policy, ns: Clocks, n: nat, past: Past, key: string)
    requires ValidPolicy(p) && n < |ns| && Positive(ns) && !Lapses(p, ns) && ClockInv(p, ns, n + 1, past)
    requires !Cooling(p, past.history, ns[n], key)
    ensures ClockInv(p, ns, n + 1, Past(past.history[key := ns[n]], past.log + [Sent(key, ns[n])]))
  {
    var next := Past(past.history[key := ns[n]], past.log + [Sent(key, ns[n])]);
    forall y: nat | y < |past.log| && past.log[y].key == key ensures ns[n] - past.log[y].time >= p.cooldown {
      LongAgo(p, ns, n, past, key, y);
    }
    forall x: nat | Latest(next.log, x) ensures Held(p, ns, n + 1, next.history, next.log[x]) {
      if x < |past.log| {
        assert next.log[|past.log|].key != next.log[x].key;
        assert Latest(past.log, x) by {
          forall y | x < y < |past.log| ensures past.log[y].key != past.log[x].key { assert next.log[y] == past.log[y]; }
        }
      }
    }
    forall x: nat | x < |next.log| ensures FromRun(ns, n + 1, next.log[x].time) {
      if x < |past.log| { assert FromRun(ns, n + 1, past.log[x].time); }
    }
  }

  lemma {:induction false} ItemsHold(p: Policy, ns: Clocks, n: nat, past: Past, items: seq<Item>)
    requires ValidPolicy(p) && n < |ns| && Positive(ns) && !Lapses(p, ns) && ClockInv(p, ns, n + 1, past)
    ensures var now := ns[n];
      ClockInv(p, ns, n + 1, Past(After(p, now, past.history, items),
                                  past.log + SentIn(now, items, Routes(p, now, past.history, items))))
    decreases |items|
  {
    var now := ns[n];
    if items == [] {
      assert past.log + [] == past.log;
    } else {
      var it := items[0];
      var r := RouteOf(p, Cooling(p, past.history, now, Key(it)), it);
      if r.Alert? { AlertHolds(p, ns, n, past, Key(it)); }
      ItemsHold(p, ns, n, Past(Noted(past.history, now, it, r), Logged(past.log, now, it, r)), items[1..]);
      FirstSent(p, now, past, items, r);
    }
  }

  lemma {:induction false} RunsHold(p: Policy, ns: Clocks, runs: seq<Run>)
    requires ValidPolicy(p) && Positive(ns) && !Lapses(p, ns)
    requires |runs| <= |ns| && forall i :: 0 <= i < |runs| ==> runs[i].now == ns[i]
    ensures ClockInv(p, ns, |runs|, RunAll(p, runs))
  {
    if runs != [] {
      var n := |runs| - 1;
      RunsHold(p, ns, runs[..n]);
      var past := RunAll(p, runs[..n]);
      NextRun(p, ns, n, past);
      CleanHolds(p, ns, n, past);
      var cleaned := past.(history := Cleaned(past.history, ns[n], MaxAge(p)));
      ItemsHold(p, ns, n, cleaned, runs[n].items);
      CleanHolds(p, ns, n, Past(After(p, ns[n], cleaned.history, runs[n].items),
                                past.log + SentIn(ns[n], runs[n].items, Routes(p, ns[n], cleaned.history, runs[n].items))));
    }
  }

  // ------------------------------------------------------------ a lapse repeats an alert

  /** An item that alerts whenever it is not cooling down. */
  function Urgent(): Item {
    Item("customer", "story", "event", false, 0.0, 0.0, 1.0)
  }

  /** The item turns up in runs `h` and `j` only. */
  function Twice(ns: Clocks, h: nat, j: nat): (runs: seq<Run>)
    ensures AtTimes(runs, ns)
  {
    seq(|ns|, k requires 0 <= k < |ns| => Run(ns[k], if k == h || k == j then [Urgent()] else []))
  }

  lemma RunOfNone(p: Policy, past: Past, now: int)
    ensures var next := RunOnce(p, past, Run(now, []));
      && next.log == past.log && next.history == Cleaned(past.history, now, MaxAge(p))
  {
  }

  lemma RunOfOne(p: Policy, past: Past, now: int)
    requires ValidPolicy(p) && past.history == map[] && now > 0
    ensures var key := Key(Urgent());
      RunOnce(p, past, Run(now, [Urgent()])) == Past(map[key := now], past.log + [Sent(key, now)])
  {
    var it := Urgent();
    var history := Cleaned(past.history, now, MaxAge(p));
    assert history == map[];
    assert [it][1..] == [];
    var r := RouteOf(p, Cooling(p, history, now, Key(it)), it);
    assert r == Alert;
    var h1 := Noted(history, now, it, r);
    assert Routes(p, now, h1, [it][1..]) == [];
    assert Routes(p, now, history, [it]) == [r] + Routes(p, now, h1, [it][1..]) == [Alert];
    assert After(p, now, history, [it]) == After(p, now, h1, [it][1..]) == h1;
    assert [Alert][1..] == [];
    assert Cleaned(map[Key(it) := now], now, MaxAge(p)) == map[Key(it) := now];
    assert SentIn(now, [it], [Alert]) == [Sent(Key(it), now)];
  }

  /** The state after the first `n` runs. */
  ghost predicate TwiceState(ns: Clocks, h: nat, i: nat, j: nat, n: nat, past: Past)
    requires h < i < j < |ns|
  {
    var key := Key(Urgent());
    if n <= h then past == Past(map[], [])
    else if n <= j then
      && past.log == [Sent(key, ns[h])]
      && past.history == if n <= i && past.history != map[] then map[key := ns[h]] else map[]
    else past.log == [Sent(key, ns[h]), Sent(key, ns[j])]
  }

  lemma TwiceStep(p: Policy, ns: Clocks, h: nat, i: nat, j: nat, n: nat, past: Past)
    requires ValidPolicy(p) && Positive(ns) && Lapse(p, ns, h, i, j) && n < |ns|
    requires TwiceState(ns, h, i, j, n, past)
    ensures TwiceState(ns, h, i, j, n + 1, RunOnce(p, past, Twice(ns, h, j)[n]))
  {
    if n == h || n == j {
      RunOfOne(p, past, ns[n]);
    } else {
      RunOfNone(p, past, ns[n]);
    }
  }

  lemma LastRun(p: Policy, runs: seq<Run>, n: nat)
    requires 0 < n <= |runs|
    ensures RunAll(p, runs[..n]) == RunOnce(p, RunAll(p, runs[..n - 1]), runs[n - 1])
  {
    assert runs[..n][..n - 1] == runs[..n - 1] && runs[..n][n - 1] == runs[n - 1];
  }

  lemma {:induction false} TwiceRuns(p: Policy, ns: Clocks, h: nat, i: nat, j: nat, n: nat)
    requires ValidPolicy(p) && Positive(ns) && Lapse(p, ns, h, i, j) && n <= |ns|
    ensures TwiceState(ns, h, i, j, n, RunAll(p, Twice(ns, h, j)[..n]))
  {
    var runs := Twice(ns, h, j);
    if n > 0 {
      TwiceRuns(p, ns, h, i, j, n - 1);
      LastRun(p, runs, n);
      var past := RunAll(p, runs[..n - 1]);
      TwiceStep(p, ns, h, i, j, n - 1, past);
    }
  }

  lemma LapseRepeats(p: Policy, ns: Clocks, h: nat, i: nat, j: nat)
    requires ValidPolicy(p) && Positive(ns) && Lapse(p, ns, h, i, j)
    ensures !Spaced(p, RunAll(p, Twice(ns, h, j)).log)
  {
    TwiceRuns(p, ns, h, i, j, |ns|);
    assert Twice(ns, h, j)[..|ns|] == Twice(ns, h, j);
    var log := RunAll(p, Twice(ns, h, j)).log;
    assert log[0].key == log[1].key && log[1].time - log[0].time < p.cooldown;
  }

  // ------------------------------------------------------------ the condition

  /** Whatever the runs at these times have to route, alerts with the same key are a cooldown apart. */
  ghost predicate AlwaysSpaced(p: Policy, ns: Clocks) {
    forall runs :: AtTimes(runs, ns) ==> Spaced(p, RunAll(p, runs).log)
  }

  /** The cooldown holds on a clock, whatever there is to route, if and only if the clock has no lapse. */
  lemma CooldownIff(p: Policy, ns: Clocks)
    requires ValidPolicy(p) && Positive(ns)
    ensures AlwaysSpaced(p, ns) <==> !Lapses(p, ns)
  {
    if !Lapses(p, ns) {
      forall runs | AtTimes(runs, ns) ensures Spaced(p, RunAll(p, runs).log) { RunsHold(p, ns, runs); }
    }
    if h: nat, i: nat, j: nat :| Lapse(p, ns, h, i, j) {
      LapseRepeats(p, ns, h, i, j);
      assert AtTimes(Twice(ns, h, j), ns);
    }
  }

  /**
   * In particular, over any sequence of saved runs with a clock that never goes
   * back, alerts with the same key are at least a cooldown apart, so no run
   * sends two.
   */
  lemma CooldownHolds(p: Policy, runs: seq<Run>)
    requires ValidPolicy(p) && InOrder(runs)
    ensures Spaced(p, RunAll(p, runs).log)
  {
    var ns := seq(|runs|, i requires 0 <= i < |runs| => runs[i].now);
    forall h: nat, i: nat, j: nat ensures !Lapse(p, ns, h, i, j) {
      if h < i < j < |ns| { assert runs[i].now <= runs[j].now; }
    }
    CooldownIff(p, ns);
    assert AtTimes(runs, ns);
  }

  /** An example: the clock jumps ahead and back, and the alert is repeated one second later. */
  lemma ClockBackRepeats(p: Policy, late: int)
    requires ValidPolicy(p) && late > MaxAge(p) + 1
    ensures !AlwaysSpaced(p, [1, late, 2])
  {
    assert Lapse(p, [1, late, 2], 0, 1, 2);
    CooldownIff(p, [1, late, 2]);
  }
}
