// The routing of an article as a table, and what an alert's key stands for.

module AlertFacts {
  import opened Common
  import opened Alerts

  /** The confidence, clamped to between 0 and 1, reaches the least confidence. */
  predicate Confident(p: Policy, it: Item) {
    it.confidence >= p.minConfidence || p.minConfidence <= 0.0
  }

  predicate Watched(p: Policy, it: Item) {
    it.score >= p.floor
  }

  /**
   * Without enough data an article goes to the needs-data list. Otherwise it alerts
   * if score and confidence suffice and nothing is cooling down; if not, it goes to
   * the watchlist under the first of these that failed, or is dropped below the floor.
   */
  lemma RouteTable(p: Policy, cooling: bool, it: Item)
    requires ValidPolicy(p)
    ensures var r := RouteOf(p, cooling, it);
      && (r.NeedsData? <==> it.needsData)
      && (r.Alert? <==> !it.needsData && it.score >= it.minimum && Confident(p, it) && !cooling)
      && (r.Dropped? <==>
            !it.needsData && !Watched(p, it) && (it.score < it.minimum || !Confident(p, it) || cooling))
      && (r.BelowThreshold? <==> !it.needsData && Watched(p, it) && it.score < it.minimum)
      && (r.LowConfidence? <==> !it.needsData && Watched(p, it) && it.score >= it.minimum && !Confident(p, it))
      && (r.CoolingDown? <==> !it.needsData && Watched(p, it) && it.score >= it.minimum && Confident(p, it) && cooling)
  {
  }

  /** The event type of the key. */
  function EventOf(it: Item): string {
    if it.event == "" then "other" else it.event
  }

  /** Two articles share a cooldown exactly if customer, story and event type are the same, unless names hold a bar. */
  lemma KeyIff(a: Item, b: Item)
    requires '|' !in a.customer && '|' !in b.customer && '|' !in a.story && '|' !in b.story
    ensures Key(a) == Key(b) <==> a.customer == b.customer && a.story == b.story && EventOf(a) == EventOf(b)
  {
    if Key(a) == Key(b) {
      var x, y := a.story + "|" + EventOf(a), b.story + "|" + EventOf(b);
      assert Key(a) == a.customer + "|" + x && Key(b) == b.customer + "|" + y;
      FirstSeparator('|', a.customer, x, b.customer, y);
      FirstSeparator('|', a.story, EventOf(a), b.story, EventOf(b));
    }
  }

  /** With a bar in a name, two customers can share a cooldown. */
  lemma BarsCollide(a: Item, b: Item)
    requires a.customer == "x|y" && a.story == "z" && b.customer == "x" && b.story == "y|z" && a.event == b.event
    ensures a.customer != b.customer && Key(a) == Key(b)
  {
    assert Key(a) == "x|y|z|" + EventOf(a);
    assert Key(b) == "x|y|z|" + EventOf(b);
  }

  /** History is kept for at least 30 days and six cooldowns, and no longer than the longer of the two. */
  lemma AgeLimit(p: Policy)
    ensures MaxAge(p) >= 30 * 86400 && MaxAge(p) >= 6 * p.cooldown
    ensures MaxAge(p) == 30 * 86400 || MaxAge(p) == 6 * p.cooldown
  {
  }

  /** Forgetting keeps exactly the entries that have a time and are no older than the limit, as they were. */
  lemma CleanedIff(history: map<string, int>, now: int, maxAge: int, key: string)
    ensures key in Cleaned(history, now, maxAge) <==> key in history && history[key] > 0 && history[key] >= now - maxAge
    ensures key in Cleaned(history, now, maxAge) ==> Cleaned(history, now, maxAge)[key] == history[key]
  {
  }
}
