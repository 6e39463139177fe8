// `crd_coverage`: the digest-to-newest-timestamp map of all complete reports,
// computed without keeping ordinary reports in memory. It is compared here with
// the plain form that reassembles everything first.

module Coverage {
  import opened Common
  import opened TreeHash
  import opened Partition
  import opened Reassembly

  /** `timestamp(data.get('updateTimestamp'))`, with the parser of timestamps as a parameter. */
  type Clock = Option<Value> -> real

  type Known = map<string, real>

  /** The artifact digest of a report, if it has a non-empty one, or the exception raised. */
  function DigestOf(data: Items): Py<Option<string>> {
    if !Has(data, "artifact") then Done(None)
    else match Get(data, "artifact")
      case Dict(artifact) => if Has(artifact, "digest") then AsKey(Get(artifact, "digest")) else Done(None)
      case _ => Escapes // AttributeError: no `get`
  }

  /** A digest as a key of the map. */
  function AsKey(v: Value): Py<Option<string>> {
    match v
    case Str(s) => Done(if s != "" then Some(s) else None)
    case List(_) => if Truthy(v) then Caught else Done(None) // TypeError: not hashable
    case Dict(_) => if Truthy(v) then Caught else Done(None)
    case _ => Done(None)
  }

  function TimeOf(clock: Clock, data: Items): real {
    clock(if Has(data, "updateTimestamp") then Some(Get(data, "updateTimestamp")) else None)
  }

  function Newest(known: Known, digest: string): real {
    if digest in known then known[digest] else 0.0
  }

  /** Digest and time of a report, if it has a digest; no exception is caught here. */
  function Sighting(clock: Clock, r: Report): Py<Option<(string, real)>> {
    if !r.body.Fields? then Escapes // KeyError, or AttributeError
    else match DigestOf(r.body.items)
      case Done(None) => Done(None)
      case Done(Some(d)) => Done(Some((d, TimeOf(clock, r.body.items))))
      case _ => Escapes
  }

  function Update(known: Known, digest: string, time: real): Known {
    known[digest := MaxReal(Newest(known, digest), time)]
  }

  /** `remember`: one more report seen; None where an exception is raised. */
  function Remember(clock: Clock, known: Option<Known>, r: Report): Option<Known> {
    if known.None? then None
    else match Sighting(clock, r)
      case Done(None) => known
      case Done(Some((d, t))) => Some(Update(known.value, d, t))
      case _ => None
  }

  function RememberAll(clock: Clock, known: Option<Known>, reports: seq<Report>): Option<Known> {
    if reports == [] then known
    else
      var n := |reports| - 1;
      Remember(clock, RememberAll(clock, known, reports[..n]), reports[n])
  }

  datatype Covered = Covered(known: Known, incomplete: nat)

  /** Remembering the complete reports after what is already known. */
  function Covering(clock: Clock, known: Option<Known>, tally: Option<Tally>): Option<Covered> {
    if known.None? || tally.None? then None
    else match RememberAll(clock, known, tally.value.complete)
      case None => None
      case Some(all) => Some(Covered(all, tally.value.incomplete))
  }

  /** The plain form: reassemble the whole list, then remember every complete report. */
  function PlainCoverage(sha: string -> string, clock: Clock, reports: seq<Report>): Option<Covered> {
    Covering(clock, Some(map[]), CompleteReports(sha, reports))
  }

  /** The low-memory form: remember ordinary reports as they come, keep only the partitioned ones. */
  function CrdCoverage(sha: string -> string, clock: Clock, reports: seq<Report>): Option<Covered> {
    var streamed := RememberAll(clock, Some(map[]), Filter(reports, IsOrdinary));
    Covering(clock, streamed, CompleteReports(sha, Filter(reports, IsPartitioned)))
  }

  // ------------------------------------------------------------ order of remembering

  lemma UpdatesCommute(known: Known, d: string, t: real, e: string, u: real)
    ensures Update(Update(known, d, t), e, u) == Update(Update(known, e, u), d, t)
  {
  }

  lemma RememberCommutes(clock: Clock, known: Option<Known>, a: Report, b: Report)
    ensures Remember(clock, Remember(clock, known, a), b) == Remember(clock, Remember(clock, known, b), a)
  {
    match (known, Sighting(clock, a), Sighting(clock, b)) {
      case (Some(m), Done(Some((d, t))), Done(Some((e, u)))) => UpdatesCommute(m, d, t, e, u);
      case _ =>
    }
  }

  lemma {:induction false} RememberLater(clock: Clock, known: Option<Known>, r: Report, reports: seq<Report>)
    ensures RememberAll(clock, Remember(clock, known, r), reports)
         == Remember(clock, RememberAll(clock, known, reports), r)
  {
    if reports != [] {
      var n := |reports| - 1;
      RememberLater(clock, known, r, reports[..n]);
      RememberCommutes(clock, RememberAll(clock, known, reports[..n]), r, reports[n]);
    }
  }

  // ------------------------------------------------------------ the two indexes agree

  /** `small` is `big` without the ordinary reports. */
  ghost predicate Partitions(small: Index, big: Index) {
    forall k :: (k in small <==> k in big && big[k].ann.mode != "") && (k in small ==> small[k] == big[k])
  }

  lemma SmallIndex(reports: seq<Report>)
    requires UniqueNames(reports)
    ensures UniqueNames(Filter(reports, IsPartitioned))
    ensures Partitions(ByName(Filter(reports, IsPartitioned)), ByName(reports))
  {
    var few := Filter(reports, IsPartitioned);
    forall r ensures r in few <==> r in reports && r.ann.mode != "" { FilterMember(reports, IsPartitioned, r); }
    forall k ensures (k in ByName(few) <==> k in ByName(reports) && ByName(reports)[k].ann.mode != "")
             ensures k in ByName(few) ==> ByName(few)[k] == ByName(reports)[k] {
      ByNameLookup(reports, k);
      ByNameLookup(few, k);
    }
  }

  lemma {:induction false} GatherSame(small: Index, big: Index, r: Report, data: Items, names: seq<string>, n: nat)
    requires Partitions(small, big) && n <= |names|
    ensures Gather(small, r, data, names, n) == Gather(big, r, data, names, n)
  {
    if n > 0 {
      GatherSame(small, big, r, data, names, n - 1);
      CheckSame(small, big, r, data, names[n - 1], n - 1);
    }
  }

  /** An ordinary report in a part's place is rejected just as a missing part is. */
  lemma CheckSame(small: Index, big: Index, r: Report, data: Items, name: string, index: nat)
    requires Partitions(small, big)
    ensures CheckPart(small, r, data, name, index) == CheckPart(big, r, data, name, index)
  {
    var k := (r.namespace, name);
    assert k in small <==> k in big && big[k].ann.mode != "";
  }

  lemma JudgeSame(sha: string -> string, small: Index, big: Index, r: Report)
    requires Partitions(small, big)
    ensures Judge(sha, small, r) == Judge(sha, big, r)
  {
    if PartNames(r.ann.parts).Some? && r.body.Fields? {
      var names := PartNames(r.ann.parts).value;
      GatherSame(small, big, r, r.body.items, names, |names|);
    }
  }

  // ------------------------------------------------------------ same map

  /** The plain scan and the split scan agree on the count and on what is remembered. */
  ghost predicate InStep(clock: Clock, all: Option<Tally>, streamed: Option<Known>, few: Option<Tally>) {
    all.Some? == few.Some? &&
    (all.Some? ==>
      all.value.incomplete == few.value.incomplete &&
      RememberAll(clock, Some(map[]), all.value.complete) == RememberAll(clock, streamed, few.value.complete))
  }

  lemma RememberSnoc(clock: Clock, known: Option<Known>, reports: seq<Report>, r: Report)
    ensures RememberAll(clock, known, reports + [r]) == Remember(clock, RememberAll(clock, known, reports), r)
  {
    assert (reports + [r])[..|reports|] == reports;
  }

  lemma InStepOrdinary(clock: Clock, all: Option<Tally>, streamed: Option<Known>, few: Option<Tally>, r: Report)
    requires InStep(clock, all, streamed, few)
    ensures InStep(clock, Add(all, Whole(r)), Remember(clock, streamed, r), few)
  {
    if all.Some? {
      RememberSnoc(clock, Some(map[]), all.value.complete, r);
      RememberLater(clock, streamed, r, few.value.complete);
    }
  }

  lemma InStepPartitioned(clock: Clock, all: Option<Tally>, streamed: Option<Known>, few: Option<Tally>, v: Verdict)
    requires InStep(clock, all, streamed, few)
    ensures InStep(clock, Add(all, v), streamed, Add(few, v))
  {
    if all.Some? && v.Whole? {
      RememberSnoc(clock, Some(map[]), all.value.complete, v.report);
      RememberSnoc(clock, streamed, few.value.complete, v.report);
    }
  }

  lemma {:induction false} ScansInStep(sha: string -> string, clock: Clock, small: Index, big: Index, reports: seq<Report>)
    requires Partitions(small, big)
    ensures InStep(clock, Scan(sha, big, reports),
                   RememberAll(clock, Some(map[]), Filter(reports, IsOrdinary)),
                   Scan(sha, small, Filter(reports, IsPartitioned)))
  {
    if reports != [] {
      var n := |reports| - 1;
      var before, r := reports[..n], reports[n];
      ScansInStep(sha, clock, small, big, before);
      var all := Scan(sha, big, before);
      var ordinary, few := Filter(before, IsOrdinary), Filter(before, IsPartitioned);
      var streamed := RememberAll(clock, Some(map[]), ordinary);
      FilterSnoc(reports);
      if r.ann.mode == "" {
        RememberSnoc(clock, Some(map[]), ordinary, r);
        InStepOrdinary(clock, all, streamed, Scan(sha, small, few), r);
      } else {
        JudgeSame(sha, small, big, r);
        assert (few + [r])[..|few|] == few;
        InStepPartitioned(clock, all, streamed, Scan(sha, small, few), Judge(sha, big, r));
      }
    }
  }

  lemma FilterSnoc(reports: seq<Report>)
    requires reports != []
    ensures var before, r := reports[..|reports| - 1], reports[|reports| - 1];
            && Filter(reports, IsOrdinary) == (if r.ann.mode == "" then Filter(before, IsOrdinary) + [r] else Filter(before, IsOrdinary))
            && Filter(reports, IsPartitioned) == (if r.ann.mode == "" then Filter(before, IsPartitioned) else Filter(before, IsPartitioned) + [r])
  {
    var before, r := reports[..|reports| - 1], reports[|reports| - 1];
    assert reports == before + [r];
    FilterConcat(before, [r], IsOrdinary);
    FilterConcat(before, [r], IsPartitioned);
  }

  // ------------------------------------------------------------ the incomplete count

  /** Some part names an ordinary report as the root it belongs to. */
  ghost predicate PartOfOrdinary(reports: seq<Report>) {
    exists p, r :: p in reports && r in reports && p.ann.mode == "part" && r.ann.mode == "" &&
      KeyOf(r) == (p.namespace, p.ann.root)
  }

  lemma SubsetSize<T>(a: set<T>, b: set<T>)
    requires a <= b
    ensures |a| <= |b| && (|a| == |b| <==> a == b)
  {
    assert b == a + (b - a) && |b| == |a| + |b - a|;
  }

  lemma MoreOrphans(reports: seq<Report>)
    requires UniqueNames(reports)
    ensures var few := Filter(reports, IsPartitioned);
            var a, b := OrphanRoots(ByName(reports), reports), OrphanRoots(ByName(few), few);
            |a| <= |b| && (|a| == |b| <==> !PartOfOrdinary(reports))
  {
    var few := Filter(reports, IsPartitioned);
    var big, small := ByName(reports), ByName(few);
    SmallIndex(reports);
    forall r ensures r in few <==> r in reports && r.ann.mode != "" { FilterMember(reports, IsPartitioned, r); }
    var a, b := OrphanRoots(big, reports), OrphanRoots(small, few);
    forall k | k in a ensures k in b {
      var p :| p in reports && IsOrphan(big, p) && (p.namespace, p.ann.root) == k;
      assert p in few && IsOrphan(small, p);
    }
    SubsetSize(a, b);
    if PartOfOrdinary(reports) {
      var p, r :| p in reports && r in reports && p.ann.mode == "part" && r.ann.mode == "" &&
        KeyOf(r) == (p.namespace, p.ann.root);
      ByNameLookup(reports, KeyOf(r));
      assert p in few && IsOrphan(small, p) && KeyOf(r) in b;
      assert forall k :: k in a ==> k !in big;
    } else {
      forall k | k in b ensures k in a {
        var p :| p in few && IsOrphan(small, p) && (p.namespace, p.ann.root) == k;
        if k in big { ByNameLookup(reports, k); }
        assert p in reports && IsOrphan(big, p);
      }
    }
  }

  /**
   * The low-memory form knows the same digests at the same times as the plain
   * form. It reports at least as many incomplete sets, and the same number
   * exactly when no part names an ordinary report as its root.
   */
  lemma LowMemoryCoverage(sha: string -> string, clock: Clock, reports: seq<Report>)
    requires UniqueNames(reports)
    ensures var low, plain := CrdCoverage(sha, clock, reports), PlainCoverage(sha, clock, reports);
            && low.Some? == plain.Some?
            && (low.Some? ==>
                  && low.value.known == plain.value.known
                  && low.value.incomplete >= plain.value.incomplete
                  && (low.value.incomplete == plain.value.incomplete <==> !PartOfOrdinary(reports)))
  {
    var few := Filter(reports, IsPartitioned);
    SmallIndex(reports);
    ScansInStep(sha, clock, ByName(few), ByName(reports), reports);
    MoreOrphans(reports);
    SameCovering(clock, CompleteReports(sha, reports),
                 RememberAll(clock, Some(map[]), Filter(reports, IsOrdinary)), CompleteReports(sha, few));
  }

  lemma SameCovering(clock: Clock, all: Option<Tally>, streamed: Option<Known>, few: Option<Tally>)
    requires all.Some? == few.Some?
    requires all.Some? ==>
      RememberAll(clock, Some(map[]), all.value.complete) == RememberAll(clock, streamed, few.value.complete)
    ensures var low, plain := Covering(clock, streamed, few), Covering(clock, Some(map[]), all);
            && low.Some? == plain.Some?
            && (low.Some? ==>
                  && few.Some? && low.value == Covered(low.value.known, few.value.incomplete)
                  && plain.value == Covered(low.value.known, all.value.incomplete))
  {
    if streamed.None? && few.Some? { NoneStays(clock, few.value.complete); }
  }

  lemma {:induction false} NoneStays(clock: Clock, reports: seq<Report>)
    ensures RememberAll(clock, None, reports) == None
  {
    if reports != [] { NoneStays(clock, reports[..|reports| - 1]); }
  }

  // ------------------------------------------------------------ newest

  /** The report has artifact digest `d`, and its timestamp reads as `t`. */
  ghost predicate Shows(clock: Clock, r: Report, d: string, t: real) {
    && r.body.Fields? && d != ""
    && Has(r.body.items, "artifact") && Get(r.body.items, "artifact").Dict?
    && var artifact := Get(r.body.items, "artifact").items;
    && Has(artifact, "digest") && Get(artifact, "digest") == Str(d)
    && t == clock(if Has(r.body.items, "updateTimestamp") then Some(Get(r.body.items, "updateTimestamp")) else None)
  }

  lemma SightingIff(clock: Clock, r: Report, d: string, t: real)
    ensures Sighting(clock, r) == Done(Some((d, t))) <==> Shows(clock, r, d, t)
  {
  }

  ghost predicate ShownIn(clock: Clock, reports: seq<Report>, d: string, t: real) {
    exists r :: r in reports && Shows(clock, r, d, t)
  }

  /** The digest is known if some report has it: at the newest time of those reports, and never below 0. */
  ghost predicate NewestOf(clock: Clock, reports: seq<Report>, known: Known, d: string) {
    && (d in known <==> exists t :: ShownIn(clock, reports, d, t))
    && (d in known ==>
          && known[d] >= 0.0 && (known[d] == 0.0 || ShownIn(clock, reports, d, known[d]))
          && forall t :: ShownIn(clock, reports, d, t) ==> t <= known[d])
  }

  lemma ShownSnoc(clock: Clock, reports: seq<Report>, r: Report, d: string, t: real)
    ensures ShownIn(clock, reports + [r], d, t) <==> ShownIn(clock, reports, d, t) || Shows(clock, r, d, t)
  {
    assert forall x :: x in reports + [r] <==> x in reports || x == r;
    if x :| x in reports && Shows(clock, x, d, t) { assert x in reports + [r]; }
    if Shows(clock, r, d, t) { assert r in reports + [r]; }
  }

  /** Nothing new about `d`. */
  lemma NewestStays(clock: Clock, reports: seq<Report>, known: Known, known': Known, r: Report, d: string)
    requires NewestOf(clock, reports, known, d) && forall t :: !Shows(clock, r, d, t)
    requires (d in known <==> d in known') && (d in known ==> known'[d] == known[d])
    ensures NewestOf(clock, reports + [r], known', d)
  {
    forall t ensures ShownIn(clock, reports + [r], d, t) <==> ShownIn(clock, reports, d, t) {
      ShownSnoc(clock, reports, r, d, t);
    }
  }

  /** One more time for `d`. */
  lemma NewestGrows(clock: Clock, reports: seq<Report>, known: Known, r: Report, d: string, time: real)
    requires NewestOf(clock, reports, known, d) && forall t :: Shows(clock, r, d, t) <==> t == time
    ensures NewestOf(clock, reports + [r], Update(known, d, time), d)
  {
    forall t ensures ShownIn(clock, reports + [r], d, t) <==> ShownIn(clock, reports, d, t) || t == time {
      ShownSnoc(clock, reports, r, d, t);
    }
    assert ShownIn(clock, reports + [r], d, time);
  }

  lemma NewestStep(clock: Clock, reports: seq<Report>, known: Known, r: Report, d: string)
    requires NewestOf(clock, reports, known, d) && Remember(clock, Some(known), r).Some?
    ensures NewestOf(clock, reports + [r], Remember(clock, Some(known), r).value, d)
  {
    forall t ensures Shows(clock, r, d, t) <==> Sighting(clock, r) == Done(Some((d, t))) { SightingIff(clock, r, d, t); }
    match Sighting(clock, r) {
      case Done(Some((e, time))) =>
        if e == d {
          NewestGrows(clock, reports, known, r, d, time);
        } else {
          NewestStays(clock, reports, known, Update(known, e, time), r, d);
        }
      case _ => NewestStays(clock, reports, known, known, r, d);
    }
  }

  lemma NothingShown(clock: Clock, d: string)
    ensures NewestOf(clock, [], map[], d)
  {
  }

  lemma {:induction false} NewestAll(clock: Clock, before: seq<Report>, known: Known, reports: seq<Report>, d: string)
    requires NewestOf(clock, before, known, d) && RememberAll(clock, Some(known), reports).Some?
    ensures NewestOf(clock, before + reports, RememberAll(clock, Some(known), reports).value, d)
  {
    if reports == [] {
      assert before + reports == before;
    } else {
      var n := |reports| - 1;
      NewestAll(clock, before, known, reports[..n], d);
      NewestStep(clock, before + reports[..n], RememberAll(clock, Some(known), reports[..n]).value, reports[n], d);
      assert before + reports == (before + reports[..n]) + [reports[n]];
    }
  }

  /** A digest is known at the newest time any ordinary or complete report has for it. */
  lemma KnownIsNewest(sha: string -> string, clock: Clock, reports: seq<Report>, d: string)
    requires CrdCoverage(sha, clock, reports).Some?
    ensures var few := CompleteReports(sha, Filter(reports, IsPartitioned));
      few.Some? &&
      NewestOf(clock, Filter(reports, IsOrdinary) + few.value.complete, CrdCoverage(sha, clock, reports).value.known, d)
  {
    var ordinary, few := Filter(reports, IsOrdinary), CompleteReports(sha, Filter(reports, IsPartitioned));
    NothingShown(clock, d);
    NewestAll(clock, [], map[], ordinary, d);
    assert [] + ordinary == ordinary;
    NewestAll(clock, ordinary, RememberAll(clock, Some(map[]), ordinary).value, few.value.complete, d);
  }

  /** Remembering the report raises an exception. */
  ghost predicate Unreadable(r: Report) {
    !r.body.Fields? || (Has(r.body.items, "artifact") && (!Get(r.body.items, "artifact").Dict? || BadDigest(Get(r.body.items, "artifact").items)))
  }

  /** The digest is a list or a dict, and not an empty one: it has no hash. */
  ghost predicate BadDigest(artifact: Items) {
    Has(artifact, "digest") &&
    (|| (Get(artifact, "digest").List? && Get(artifact, "digest").elems != [])
     || (Get(artifact, "digest").Dict? && Get(artifact, "digest").items != []))
  }

  lemma RememberRaisesIff(clock: Clock, known: Known, r: Report)
    ensures Remember(clock, Some(known), r).None? <==> Unreadable(r)
  {
  }

  lemma {:induction false} AllRaiseIff(clock: Clock, known: Known, reports: seq<Report>)
    ensures RememberAll(clock, Some(known), reports).None? <==> exists r :: r in reports && Unreadable(r)
  {
    if reports != [] {
      var n := |reports| - 1;
      var before := RememberAll(clock, Some(known), reports[..n]);
      AllRaiseIff(clock, known, reports[..n]);
      assert reports == reports[..n] + [reports[n]];
      if before.Some? { RememberRaisesIff(clock, before.value, reports[n]); }
    }
  }

  /**
   * There is no coverage exactly if the scan ends in an exception, or the body or
   * the artifact of an ordinary or complete report is not a dict, or its digest
   * has no hash.
   */
  lemma RaisesIff(sha: string -> string, clock: Clock, reports: seq<Report>)
    ensures var few := CompleteReports(sha, Filter(reports, IsPartitioned));
      CrdCoverage(sha, clock, reports).None? <==>
        || few.None?
        || (exists r :: r in Filter(reports, IsOrdinary) && Unreadable(r))
        || exists r :: r in few.value.complete && Unreadable(r)
  {
    var streamed := RememberAll(clock, Some(map[]), Filter(reports, IsOrdinary));
    var few := CompleteReports(sha, Filter(reports, IsPartitioned));
    AllRaiseIff(clock, map[], Filter(reports, IsOrdinary));
    if streamed.Some? && few.Some? { AllRaiseIff(clock, streamed.value, few.value.complete); }
  }

  // ------------------------------------------------------------ the loop

  method CoverStream(sha: string -> string, clock: Clock, reports: seq<Report>) returns (out: Option<Covered>)
    ensures out == CrdCoverage(sha, clock, reports)
  {
    var known: Option<Known> := Some(map[]);
    var partitioned := [];
    for i := 0 to |reports|
      invariant known.Some? && known == RememberAll(clock, Some(map[]), Filter(reports[..i], IsOrdinary))
      invariant partitioned == Filter(reports[..i], IsPartitioned)
    {
      var r := reports[i];
      FilterSnoc(reports[..i + 1]);
      assert reports[..i + 1][..i] == reports[..i];
      if r.ann.mode != "" {
        partitioned := partitioned + [r];
      } else {
        RememberSnoc(clock, Some(map[]), Filter(reports[..i], IsOrdinary), r);
        known := Remember(clock, known, r);
        if known.None? {
          StreamFails(clock, reports, i + 1);
          return None;
        }
      }
    }
    assert reports[..|reports|] == reports;
    var tally := CollectReports(sha, partitioned);
    if tally.None? { return None; }
    var complete := tally.value.complete;
    for i := 0 to |complete|
      invariant known.Some?
      invariant RememberAll(clock, known, complete[i..])
             == RememberAll(clock, RememberAll(clock, Some(map[]), Filter(reports, IsOrdinary)), complete)
    {
      RememberFirst(clock, known, complete[i..]);
      assert complete[i..][1..] == complete[i + 1..];
      known := Remember(clock, known, complete[i]);
      if known.None? {
        NoneStays(clock, complete[i + 1..]);
        return None;
      }
    }
    return Some(Covered(known.value, tally.value.incomplete));
  }

  lemma {:induction false} RememberFirst(clock: Clock, known: Option<Known>, reports: seq<Report>)
    requires reports != []
    ensures RememberAll(clock, known, reports) == RememberAll(clock, Remember(clock, known, reports[0]), reports[1..])
  {
    var n := |reports| - 1;
    if n > 0 {
      RememberFirst(clock, known, reports[..n]);
      assert reports[..n][1..] == reports[1..][..n - 1];
    }
  }

  /** Once an ordinary report raises an exception, it stands. */
  lemma {:induction false} StreamFails(clock: Clock, reports: seq<Report>, n: nat)
    requires n <= |reports|
    requires RememberAll(clock, Some(map[]), Filter(reports[..n], IsOrdinary)) == None
    ensures RememberAll(clock, Some(map[]), Filter(reports, IsOrdinary)) == None
    decreases |reports| - n
  {
    if n < |reports| {
      FilterSnoc(reports[..n + 1]);
      assert reports[..n + 1][..n] == reports[..n];
      if reports[n].ann.mode == "" {
        RememberSnoc(clock, Some(map[]), Filter(reports[..n], IsOrdinary), reports[n]);
      }
      StreamFails(clock, reports, n + 1);
    } else {
      assert reports[..n] == reports;
    }
  }
}
