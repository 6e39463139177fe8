// Routing scored articles to alerts, with a cooldown per customer, story and
// event type that must survive from run to run although old history is pruned.

module Alerts {
  import opened Common

  /** The routing configuration; the cooldown is in seconds. */
  datatype Policy = Policy(cooldown: nat, minConfidence: real, floor: real)

  /** `cooldown_hours` is at least 1, and the least confidence is clamped to 1. */
  predicate ValidPolicy(p: Policy) {
    p.cooldown >= 3600 && p.minConfidence <= 1.0
  }

  /** History older than this is forgotten: 30 days or six cooldowns. */
  function MaxAge(p: Policy): nat {
    if p.cooldown * 6 > 2592000 then p.cooldown * 6 else 2592000
  }

  function Cleaned(history: map<string, int>, now: int, maxAge: int): map<string, int> {
    map key | key in history && history[key] > 0 && now - history[key] <= maxAge :: history[key]
  }

  /** `cleanup_alert_history`, in whatever order the dict is walked. */
  method CleanLoop(history: map<string, int>, now: int, maxAge: int) returns (cleaned: map<string, int>)
    ensures cleaned == Cleaned(history, now, maxAge)
  {
    cleaned := map[];
    var left := history.Keys;
    while left != {}
      invariant left <= history.Keys
      invariant cleaned == map key | key in history && key !in left && history[key] > 0 && now - history[key] <= maxAge
                             :: history[key]
      decreases left
    {
      var key :| key in left;
      left := left - {key};
      if history[key] > 0 && now - history[key] <= maxAge {
        cleaned := cleaned[key := history[key]];
      }
    }
  }

  // ------------------------------------------------------------ one article for one customer

  /** An article scored for a customer; the score, the customer's minimum and the data check are given. */
  datatype Item = Item(customer: string, story: string, event: string,
                       needsData: bool, score: real, minimum: real, confidence: real)

  /** The middle three go to the watchlist, with that reason. */
  datatype Route = Alert | BelowThreshold | LowConfidence | CoolingDown | NeedsData | Dropped

  function Key(it: Item): string {
    it.customer + "|" + it.story + "|" + (if it.event == "" then "other" else it.event)
  }

  function Confidence(it: Item): real {
    if it.confidence < 0.0 then 0.0 else if it.confidence > 1.0 then 1.0 else it.confidence
  }

  /** Where an item goes, knowing whether its key is cooling down. */
  function RouteOf(p: Policy, cooling: bool, it: Item): Route {
    var watched := it.score >= p.floor;
    if it.needsData then NeedsData
    else if it.score < it.minimum then if watched then BelowThreshold else Dropped
    else if Confidence(it) < p.minConfidence then if watched then LowConfidence else Dropped
    else if cooling then if watched then CoolingDown else Dropped
    else Alert
  }

  /** The history says the key alerted less than a cooldown ago. */
  predicate Cooling(p: Policy, history: map<string, int>, now: int, key: string) {
    key in history && history[key] > 0 && now - history[key] < p.cooldown
  }

  function Noted(history: map<string, int>, now: int, it: Item, r: Route): map<string, int> {
    if r.Alert? then history[Key(it) := now] else history
  }

  function Routes(p: Policy, now: int, history: map<string, int>, items: seq<Item>): (rs: seq<Route>)
    ensures |rs| == |items|
    decreases |items|
  {
    if items == [] then []
    else
      var r := RouteOf(p, Cooling(p, history, now, Key(items[0])), items[0]);
      [r] + Routes(p, now, Noted(history, now, items[0], r), items[1..])
  }

  function After(p: Policy, now: int, history: map<string, int>, items: seq<Item>): map<string, int>
    decreases |items|
  {
    if items == [] then history
    else
      var r := RouteOf(p, Cooling(p, history, now, Key(items[0])), items[0]);
      After(p, now, Noted(history, now, items[0], r), items[1..])
  }

  // ------------------------------------------------------------ the routing loop

  datatype Entry = Entry(index: nat, route: Route)

  /** The lists of one kind, per customer. */
  type Lists = map<string, seq<Entry>>

  function Listed(l: Lists, customer: string): seq<Entry> {
    if customer in l then l[customer] else []
  }

  function Append(l: Lists, customer: string, e: Entry): Lists {
    l[customer := Listed(l, customer) + [e]]
  }

  datatype Kind = Alerting | Watching | Incomplete {
    predicate Covers(r: Route) {
      match this
      case Alerting => r.Alert?
      case Watching => r.BelowThreshold? || r.LowConfidence? || r.CoolingDown?
      case Incomplete => r.NeedsData?
    }
  }

  ghost predicate Ascending(s: seq<Entry>) {
    forall i, j :: 0 <= i < j < |s| ==> s[i].index < s[j].index
  }

  /** The entry is of an item of this customer, with its route, which is of this kind. */
  ghost predicate Belongs(e: Entry, customer: string, items: seq<Item>, routes: seq<Route>, kind: Kind) {
    && e.index < |routes| && e.index < |items| && items[e.index].customer == customer
    && e.route == routes[e.index] && kind.Covers(e.route)
  }

  /** The lists hold exactly the items routed this way, each under its customer and in order. */
  ghost predicate Holds(l: Lists, items: seq<Item>, routes: seq<Route>, kind: Kind) {
    && |routes| <= |items|
    && (forall c, e :: e in Listed(l, c) <==> Belongs(e, c, items, routes, kind))
    && (forall c :: Ascending(Listed(l, c)))
  }

  function Put(l: Lists, kind: Kind, customer: string, n: nat, r: Route): Lists {
    if kind.Covers(r) then Append(l, customer, Entry(n, r)) else l
  }

  lemma PutListed(l: Lists, kind: Kind, c: string, n: nat, r: Route, d: string)
    ensures Listed(Put(l, kind, c, n, r), d) ==
      if kind.Covers(r) && d == c then Listed(l, d) + [Entry(n, r)] else Listed(l, d)
  {
  }

  lemma MemberMore(l: Lists, items: seq<Item>, routes: seq<Route>, kind: Kind, r: Route, d: string, e: Entry)
    requires Holds(l, items, routes, kind) && |routes| < |items|
    ensures var n := |routes|;
      e in Listed(Put(l, kind, items[n].customer, n, r), d) <==> Belongs(e, d, items, routes + [r], kind)
  {
    PutListed(l, kind, items[|routes|].customer, |routes|, r, d);
    assert e in Listed(l, d) <==> Belongs(e, d, items, routes, kind);
  }

  lemma AscendMore(s: seq<Entry>, n: nat, r: Route)
    requires Ascending(s) && forall e :: e in s ==> e.index < n
    ensures Ascending(s + [Entry(n, r)])
  {
    forall i | 0 <= i < |s| ensures s[i].index < n { assert s[i] in s; }
  }

  lemma HoldsMore(l: Lists, items: seq<Item>, routes: seq<Route>, kind: Kind, r: Route)
    requires Holds(l, items, routes, kind) && |routes| < |items|
    ensures Holds(Put(l, kind, items[|routes|].customer, |routes|, r), items, routes + [r], kind)
  {
    var n := |routes|;
    var l' := Put(l, kind, items[n].customer, n, r);
    forall d, e ensures e in Listed(l', d) <==> Belongs(e, d, items, routes + [r], kind) {
      MemberMore(l, items, routes, kind, r, d, e);
    }
    forall d ensures Ascending(Listed(l', d)) {
      PutListed(l, kind, items[n].customer, n, r, d);
      assert Ascending(Listed(l, d));
      forall e | e in Listed(l, d) ensures e.index < n { assert Belongs(e, d, items, routes, kind); }
      AscendMore(Listed(l, d), n, r);
    }
  }

  /** The three kinds of lists together. */
  ghost predicate AllHold(alerts: Lists, watchlist: Lists, needsData: Lists, items: seq<Item>, routes: seq<Route>) {
    && Holds(alerts, items, routes, Alerting)
    && Holds(watchlist, items, routes, Watching)
    && Holds(needsData, items, routes, Incomplete)
  }

  lemma AllHoldMore(alerts: Lists, watchlist: Lists, needsData: Lists, items: seq<Item>, routes: seq<Route>, r: Route)
    requires AllHold(alerts, watchlist, needsData, items, routes) && |routes| < |items|
    ensures var n, c := |routes|, items[|routes|].customer;
      AllHold(Put(alerts, Alerting, c, n, r), Put(watchlist, Watching, c, n, r), Put(needsData, Incomplete, c, n, r),
              items, routes + [r])
  {
    HoldsMore(alerts, items, routes, Alerting, r);
    HoldsMore(watchlist, items, routes, Watching, r);
    HoldsMore(needsData, items, routes, Incomplete, r);
  }

  /** The body of the loop: one item to its list, and an alert into the history. */
  method RouteItem(p: Policy, now: int, it: Item, n: nat, alerts: Lists, watchlist: Lists, needsData: Lists,
                   history: map<string, int>)
    returns (alerts': Lists, watchlist': Lists, needsData': Lists, history': map<string, int>)
    ensures var r := RouteOf(p, Cooling(p, history, now, Key(it)), it);
      && alerts' == Put(alerts, Alerting, it.customer, n, r)
      && watchlist' == Put(watchlist, Watching, it.customer, n, r)
      && needsData' == Put(needsData, Incomplete, it.customer, n, r)
      && history' == Noted(history, now, it, r)
  {
    alerts', watchlist', needsData', history' := alerts, watchlist, needsData, history;
    if it.needsData {
      needsData' := Append(needsData, it.customer, Entry(n, NeedsData));
      return;
    }
    if it.score < it.minimum {
      if it.score >= p.floor { watchlist' := Append(watchlist, it.customer, Entry(n, BelowThreshold)); }
      return;
    }
    if Confidence(it) < p.minConfidence {
      if it.score >= p.floor { watchlist' := Append(watchlist, it.customer, Entry(n, LowConfidence)); }
      return;
    }
    var last := if Key(it) in history then history[Key(it)] else 0;
    if last > 0 && now - last < p.cooldown {
      if it.score >= p.floor { watchlist' := Append(watchlist, it.customer, Entry(n, CoolingDown)); }
      return;
    }
    history' := history[Key(it) := now];
    alerts' := Append(alerts, it.customer, Entry(n, Alert));
  }

  /**
   * One run: forget old history, route every item, save what is left. The
   * items are the (article, customer) pairs in the order of the two loops.
   */
  method RouteLoop(p: Policy, saved: map<string, int>, now: int, items: seq<Item>)
    returns (alerts: Lists, watchlist: Lists, needsData: Lists, saved': map<string, int>)
    ensures var history := Cleaned(saved, now, MaxAge(p));
      && saved' == Cleaned(After(p, now, history, items), now, MaxAge(p))
      && AllHold(alerts, watchlist, needsData, items, Routes(p, now, history, items))
  {
    var history := CleanLoop(saved, now, MaxAge(p));
    ghost var start := history;
    ghost var routes: seq<Route> := [];
    alerts, watchlist, needsData := map[], map[], map[];
    for n := 0 to |items|
      invariant |routes| == n && Onward(p, now, start, items, routes, history)
      invariant AllHold(alerts, watchlist, needsData, items, routes)
    {
      ghost var r := RouteOf(p, Cooling(p, history, now, Key(items[n])), items[n]);
      AllHoldMore(alerts, watchlist, needsData, items, routes, r);
      OnwardMore(p, now, start, items, routes, history);
      alerts, watchlist, needsData, history := RouteItem(p, now, items[n], n, alerts, watchlist, needsData, history);
      routes := routes + [r];
    }
    OnwardEnd(p, now, start, items, routes, history);
    saved' := CleanLoop(history, now, MaxAge(p));
  }

  lemma OnwardEnd(p: Policy, now: int, start: map<string, int>, items: seq<Item>,
                  routes: seq<Route>, history: map<string, int>)
    requires Onward(p, now, start, items, routes, history) && |routes| == |items|
    ensures routes == Routes(p, now, start, items) && history == After(p, now, start, items)
  {
  }

  /** The loop, having routed the first items and with this history, is on the way to the whole result. */
  ghost predicate Onward(p: Policy, now: int, start: map<string, int>, items: seq<Item>,
                         routes: seq<Route>, history: map<string, int>) {
    && |routes| <= |items|
    && Routes(p, now, start, items) == routes + Routes(p, now, history, items[|routes|..])
    && After(p, now, start, items) == After(p, now, history, items[|routes|..])
  }

  lemma OnwardMore(p: Policy, now: int, start: map<string, int>, items: seq<Item>,
                   routes: seq<Route>, history: map<string, int>)
    requires Onward(p, now, start, items, routes, history) && |routes| < |items|
    ensures var it := items[|routes|];
      var r := RouteOf(p, Cooling(p, history, now, Key(it)), it);
      Onward(p, now, start, items, routes + [r], Noted(history, now, it, r))
  {
    var it, n := items[|routes|], |routes|;
    var r := RouteOf(p, Cooling(p, history, now, Key(it)), it);
    assert items[n..][0] == it && items[n..][1..] == items[n + 1..];
    Regroup(routes, r, Routes(p, now, Noted(history, now, it, r), items[n + 1..]));
  }

  /** Every pair is in exactly one place: an alert, the watchlist, the needs-data list, or dropped. */
  lemma InOnePlace(alerts: Lists, watchlist: Lists, needsData: Lists, items: seq<Item>, routes: seq<Route>, i: nat)
    requires |routes| == |items| && i < |items|
    requires AllHold(alerts, watchlist, needsData, items, routes)
    ensures Times(alerts, i) + Times(watchlist, i) + Times(needsData, i) + (if routes[i] == Dropped then 1 else 0) == 1
  {
    OneTime(alerts, items, routes, Alerting, i);
    OneTime(watchlist, items, routes, Watching, i);
    OneTime(needsData, items, routes, Incomplete, i);
  }

  /** How many (customer, position) places of the lists hold item `i`. */
  ghost function Times(l: Lists, i: nat): nat {
    |Places(l, i)|
  }

  ghost function Places(l: Lists, i: nat): set<(string, nat)> {
    set c, j: nat | c in l && 0 <= j < |l[c]| && l[c][j].index == i :: (c, j)
  }

  lemma PlaceMeans(l: Lists, items: seq<Item>, routes: seq<Route>, kind: Kind, i: nat, place: (string, nat))
    requires Holds(l, items, routes, kind) && i < |routes| && place in Places(l, i)
    ensures kind.Covers(routes[i]) && place.0 == items[i].customer && place.1 < |Listed(l, items[i].customer)|
    ensures Listed(l, items[i].customer)[place.1] == Entry(i, routes[i])
  {
    assert Listed(l, place.0)[place.1] in Listed(l, place.0);
  }

  lemma OneTime(l: Lists, items: seq<Item>, routes: seq<Route>, kind: Kind, i: nat)
    requires Holds(l, items, routes, kind) && i < |routes|
    ensures Times(l, i) == if kind.Covers(routes[i]) then 1 else 0
  {
    if kind.Covers(routes[i]) {
      var c := items[i].customer;
      assert Entry(i, routes[i]) in Listed(l, c);
      var j: nat :| j < |Listed(l, c)| && Listed(l, c)[j] == Entry(i, routes[i]);
      forall place | place in Places(l, i) ensures place == (c, j) {
        PlaceMeans(l, items, routes, kind, i, place);
        Increases(l, items, routes, kind, c, place.1, j);
      }
      assert (c, j) in Places(l, i);
      assert Places(l, i) == {(c, j)};
    } else {
      forall place | place in Places(l, i) ensures false { PlaceMeans(l, items, routes, kind, i, place); }
      assert Places(l, i) == {};
    }
  }

  lemma Increases(l: Lists, items: seq<Item>, routes: seq<Route>, kind: Kind, c: string, j: nat, k: nat)
    requires Holds(l, items, routes, kind) && j < |Listed(l, c)| && k < |Listed(l, c)|
    requires Listed(l, c)[j].index == Listed(l, c)[k].index
    ensures j == k
  {
  }

  // ------------------------------------------------------------ whole histories of runs

  datatype Sent = Sent(key: string, time: int)

  datatype Run = Run(now: int, items: seq<Item>)

  function SentIn(now: int, items: seq<Item>, routes: seq<Route>): seq<Sent>
    requires |routes| == |items|
  {
    if items == [] then []
    else (if routes[0].Alert? then [Sent(Key(items[0]), now)] else []) + SentIn(now, items[1..], routes[1..])
  }

  /** What is saved and everything ever sent, after these runs from an empty state. */
  datatype Past = Past(history: map<string, int>, log: seq<Sent>)

  function RunOnce(p: Policy, past: Past, run: Run): Past {
    var history := Cleaned(past.history, run.now, MaxAge(p));
    Past(Cleaned(After(p, run.now, history, run.items), run.now, MaxAge(p)),
         past.log + SentIn(run.now, run.items, Routes(p, run.now, history, run.items)))
  }

  function RunAll(p: Policy, runs: seq<Run>): Past {
    if runs == [] then Past(map[], []) else RunOnce(p, RunAll(p, runs[..|runs| - 1]), runs[|runs| - 1])
  }

  /** The clock never goes back. */
  ghost predicate InOrder(runs: seq<Run>) {
    && (forall i :: 0 <= i < |runs| ==> runs[i].now >= 1)
    && (forall i, j :: 0 <= i < j < |runs| ==> runs[i].now <= runs[j].now)
  }

  function Clock(runs: seq<Run>): int {
    if runs == [] then 1 else runs[|runs| - 1].now
  }

  /** Alerts with the same key are at least a cooldown apart. */
  ghost predicate Spaced(p: Policy, log: seq<Sent>) {
    forall i, j :: 0 <= i < j < |log| && log[i].key == log[j].key ==> log[j].time - log[i].time >= p.cooldown
  }

  // The same pipeline without pruning: it looks at everything ever sent.

  ghost predicate Recent(p: Policy, log: seq<Sent>, now: int, key: string) {
    exists i :: 0 <= i < |log| && log[i].key == key && now - log[i].time < p.cooldown
  }

  function Logged(log: seq<Sent>, now: int, it: Item, r: Route): seq<Sent> {
    if r.Alert? then log + [Sent(Key(it), now)] else log
  }

  ghost function PlainRoutes(p: Policy, now: int, log: seq<Sent>, items: seq<Item>): (rs: seq<Route>)
    ensures |rs| == |items|
    decreases |items|
  {
    if items == [] then []
    else
      var r := RouteOf(p, Recent(p, log, now, Key(items[0])), items[0]);
      [r] + PlainRoutes(p, now, Logged(log, now, items[0], r), items[1..])
  }

  ghost function PlainLog(p: Policy, runs: seq<Run>): seq<Sent> {
    if runs == [] then []
    else
      var log, run := PlainLog(p, runs[..|runs| - 1]), runs[|runs| - 1];
      log + SentIn(run.now, run.items, PlainRoutes(p, run.now, log, run.items))
  }

  // ------------------------------------------------------------ the invariant

  /** A sent alert is still in the history, or too old to matter. */
  ghost predicate Remembered(p: Policy, history: map<string, int>, a: Sent, clock: int) {
    && 1 <= a.time <= clock
    && ((a.key in history && history[a.key] >= a.time) || clock - a.time > MaxAge(p))
  }

  ghost predicate AllRemembered(p: Policy, past: Past, clock: int) {
    forall i :: 0 <= i < |past.log| ==> Remembered(p, past.history, past.log[i], clock)
  }

  /** The history holds nothing that was not sent. */
  ghost predicate Truthful(past: Past) {
    forall key :: key in past.history ==> Sent(key, past.history[key]) in past.log
  }

  ghost predicate Inv(p: Policy, past: Past, clock: int) {
    Spaced(p, past.log) && AllRemembered(p, past, clock) && Truthful(past)
  }

  lemma CleanKeepsInv(p: Policy, past: Past, clock: int, now: int)
    requires Inv(p, past, clock) && clock <= now
    ensures Inv(p, past.(history := Cleaned(past.history, now, MaxAge(p))), now)
  {
    forall i | 0 <= i < |past.log|
      ensures Remembered(p, Cleaned(past.history, now, MaxAge(p)), past.log[i], now)
    {
      assert Remembered(p, past.history, past.log[i], clock);
    }
  }

  /** The pruned history and the full log agree on what is cooling down. */
  lemma SameVerdict(p: Policy, past: Past, now: int, key: string)
    requires ValidPolicy(p) && Inv(p, past, now)
    ensures Cooling(p, past.history, now, key) <==> Recent(p, past.log, now, key)
  {
    if Cooling(p, past.history, now, key) {
      assert Sent(key, past.history[key]) in past.log;
      var i :| 0 <= i < |past.log| && past.log[i] == Sent(key, past.history[key]);
    }
    if Recent(p, past.log, now, key) {
      var i :| 0 <= i < |past.log| && past.log[i].key == key && now - past.log[i].time < p.cooldown;
      assert Remembered(p, past.history, past.log[i], now);
    }
  }

  lemma AlertKeepsInv(p: Policy, past: Past, now: int, key: string)
    requires ValidPolicy(p) && Inv(p, past, now) && now >= 1 && !Cooling(p, past.history, now, key)
    ensures Inv(p, Past(past.history[key := now], past.log + [Sent(key, now)]), now)
  {
    SameVerdict(p, past, now, key);
    var next := Past(past.history[key := now], past.log + [Sent(key, now)]);
    forall i | 0 <= i < |next.log| ensures Remembered(p, next.history, next.log[i], now) {
      if i < |past.log| { assert Remembered(p, past.history, past.log[i], now); }
    }
    forall k | k in next.history ensures Sent(k, next.history[k]) in next.log {
      if k == key { assert next.log[|past.log|] == Sent(key, now); }
    }
  }

  lemma {:induction false} ItemsKeepInv(p: Policy, now: int, past: Past, items: seq<Item>)
    requires ValidPolicy(p) && Inv(p, past, now) && now >= 1
    ensures var routes := Routes(p, now, past.history, items);
      && routes == PlainRoutes(p, now, past.log, items)
      && Inv(p, Past(After(p, now, past.history, items), past.log + SentIn(now, items, routes)), now)
    decreases |items|
  {
    if items == [] {
      assert past.log + [] == past.log;
    } else {
      var it := items[0];
      SameVerdict(p, past, now, Key(it));
      var r := RouteOf(p, Cooling(p, past.history, now, Key(it)), it);
      var next := Past(Noted(past.history, now, it, r), Logged(past.log, now, it, r));
      if r.Alert? { AlertKeepsInv(p, past, now, Key(it)); }
      ItemsKeepInv(p, now, next, items[1..]);
      FirstSent(p, now, past, items, r);
    }
  }

  lemma FirstSent(p: Policy, now: int, past: Past, items: seq<Item>, r: Route)
    requires items != [] && r == RouteOf(p, Cooling(p, past.history, now, Key(items[0])), items[0])
    ensures var rest := Routes(p, now, Noted(past.history, now, items[0], r), items[1..]);
      past.log + SentIn(now, items, Routes(p, now, past.history, items))
      == Logged(past.log, now, items[0], r) + SentIn(now, items[1..], rest)
  {
    var rest := Routes(p, now, Noted(past.history, now, items[0], r), items[1..]);
    assert Routes(p, now, past.history, items) == [r] + rest;
    assert ([r] + rest)[1..] == rest;
  }

  lemma {:induction false} RunsKeepInv(p: Policy, runs: seq<Run>)
    requires ValidPolicy(p) && InOrder(runs)
    ensures Inv(p, RunAll(p, runs), Clock(runs)) && RunAll(p, runs).log == PlainLog(p, runs)
  {
    if runs != [] {
      var before, run := runs[..|runs| - 1], runs[|runs| - 1];
      RunsKeepInv(p, before);
      var past := RunAll(p, before);
      CleanKeepsInv(p, past, Clock(before), run.now);
      var cleaned := past.(history := Cleaned(past.history, run.now, MaxAge(p)));
      ItemsKeepInv(p, run.now, cleaned, run.items);
      var routes := Routes(p, run.now, cleaned.history, run.items);
      var after := Past(After(p, run.now, cleaned.history, run.items), past.log + SentIn(run.now, run.items, routes));
      CleanKeepsInv(p, after, run.now, run.now);
    }
  }

  /** Pruning is invisible: every run routes every item as it would by looking at everything ever sent. */
  lemma PruningIsInvisible(p: Policy, runs: seq<Run>, next: Run)
    requires ValidPolicy(p) && InOrder(runs + [next])
    ensures Routes(p, next.now, Cleaned(RunAll(p, runs).history, next.now, MaxAge(p)), next.items)
         == PlainRoutes(p, next.now, PlainLog(p, runs), next.items)
    ensures RunAll(p, runs).log == PlainLog(p, runs)
  {
    assert InOrder(runs) by {
      forall i | 0 <= i < |runs| ensures runs[i] == (runs + [next])[i] {}
    }
    RunsKeepInv(p, runs);
    assert Clock(runs) <= next.now by {
      assert (runs + [next])[|runs|] == next;
      if runs != [] { assert (runs + [next])[|runs| - 1] == runs[|runs| - 1]; }
    }
    var past := RunAll(p, runs);
    CleanKeepsInv(p, past, Clock(runs), next.now);
    ItemsKeepInv(p, next.now, past.(history := Cleaned(past.history, next.now, MaxAge(p))), next.items);
  }
}
