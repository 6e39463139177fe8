// What is counted: findings by severity, and the reports of a list, each of which
// is returned, a part, or counted as incomplete.

module Counting {
  import opened Common
  import opened TreeHash
  import opened Partition
  import opened Reassembly

  // ------------------------------------------------------------ severities

  /** The same text but for the case of its ASCII letters; `name` is in lower case. */
  predicate SameButCase(s: string, name: string) {
    |s| == |name| && forall i :: 0 <= i < |s| ==> s[i] == name[i] || ('A' <= s[i] <= 'Z' && s[i] as int + 32 == name[i] as int)
  }

  predicate LowerCase(name: string) {
    forall i :: 0 <= i < |name| ==> 'a' <= name[i] <= 'z'
  }

  lemma {:induction false} LowerIff(s: string, name: string)
    requires LowerCase(name)
    ensures Lower(s) == name <==> SameButCase(s, name)
  {
    if s != "" && name != "" {
      LowerIff(s[1..], name[1..]);
      assert Lower(s) == [LowerChar(s[0])] + Lower(s[1..]) && name == [name[0]] + name[1..];
      if SameButCase(s, name) {
        assert SameButCase(s[1..], name[1..]);
      }
      if Lower(s) == name { assert Lower(s)[0] == name[0] && Lower(s)[1..] == name[1..]; }
    }
  }

  /** Findings whose severity is `name`, in any case. */
  function Severity(name: string): Value -> bool {
    (f: Value) =>
      f.Dict? && Has(f.items, "severity") && Get(f.items, "severity").Str? && SameButCase(Get(f.items, "severity").s, name)
  }

  function CountOf(findings: seq<Value>, name: string): nat {
    |Filter(findings, Severity(name))|
  }

  lemma CountSnoc(findings: seq<Value>, f: Value, name: string)
    ensures CountOf(findings + [f], name) == CountOf(findings, name) + if Severity(name)(f) then 1 else 0
  {
    var p := Severity(name);
    FilterConcat(findings, [f], p);
    assert [f][1..] == [];
    assert Filter([f], p) == if p(f) then [f] else [];
  }

  lemma BucketIs(f: Value)
    requires BucketOf(f).Done?
    ensures var b := BucketOf(f).value;
      && b.critical == (if Severity("critical")(f) then 1 else 0) && b.high == (if Severity("high")(f) then 1 else 0)
      && b.medium == (if Severity("medium")(f) then 1 else 0) && b.low == (if Severity("low")(f) then 1 else 0)
      && b.critical + b.high + b.medium + b.low + b.unknown == 1
  {
    var s := Get(f.items, "severity").s;
    LowerIff(s, "critical");
    LowerIff(s, "high");
    LowerIff(s, "medium");
    LowerIff(s, "low");
  }

  /** Each of the four severities is counted under its own name, in any case, and every other finding as unknown. */
  lemma {:induction false} SummaryCounts(findings: seq<Value>)
    requires Summary(findings).Done?
    ensures var c := Summary(findings).value;
      && c.critical == CountOf(findings, "critical") && c.high == CountOf(findings, "high")
      && c.medium == CountOf(findings, "medium") && c.low == CountOf(findings, "low")
      && c.critical + c.high + c.medium + c.low + c.unknown == |findings|
  {
    if findings != [] {
      var n := |findings| - 1;
      var before, f := findings[..n], findings[n];
      assert findings == before + [f];
      assert Buckets(findings)[..n] == Buckets(before) && Buckets(findings)[n] == BucketOf(f);
      SummaryCounts(before);
      BucketIs(f);
      CountSnoc(before, f, "critical");
      CountSnoc(before, f, "high");
      CountSnoc(before, f, "medium");
      CountSnoc(before, f, "low");
    }
  }

  predicate FieldIs(items: Items, k: string, v: Value) {
    Has(items, k) && Get(items, k) == v
  }

  /** The summary as a dict: one field per count, and one that is always 0. */
  lemma SummaryFields(c: Counts)
    ensures c.AsValue().Dict? && UniqueKeys(c.AsValue().items) && |c.AsValue().items| == 6
    ensures FieldIs(c.AsValue().items, "criticalCount", Int(c.critical)) && FieldIs(c.AsValue().items, "highCount", Int(c.high))
    ensures FieldIs(c.AsValue().items, "mediumCount", Int(c.medium)) && FieldIs(c.AsValue().items, "lowCount", Int(c.low))
    ensures FieldIs(c.AsValue().items, "unknownCount", Int(c.unknown)) && FieldIs(c.AsValue().items, "noneCount", Int(0))
  {
    var items := c.AsValue().items;
    forall i, j | 0 <= i < j < 6 ensures items[i].key != items[j].key { KeysDiffer(items, i, j); }
    FieldAt(items, 0, "criticalCount");
    FieldAt(items, 1, "highCount");
    FieldAt(items, 2, "mediumCount");
    FieldAt(items, 3, "lowCount");
    FieldAt(items, 4, "unknownCount");
    FieldAt(items, 5, "noneCount");
  }

  lemma FieldAt(items: Items, i: nat, k: string)
    requires UniqueKeys(items) && i < |items| && items[i].key == k
    ensures FieldIs(items, k, items[i].value)
  {
    FindIs(items, k, i);
  }

  lemma KeysDiffer(items: Items, i: nat, j: nat)
    requires |items| == 6 && i < j < 6
    requires items[0].key == "criticalCount" && items[1].key == "highCount" && items[2].key == "mediumCount"
    requires items[3].key == "lowCount" && items[4].key == "unknownCount" && items[5].key == "noneCount"
    ensures items[i].key != items[j].key
  {
    assert items[i].key[0] != items[j].key[0];
  }

  // ------------------------------------------------------------ the index and the orphans

  /** Report `i` is the last one with its key. */
  predicate LastWithKey(reports: seq<Report>, i: nat) {
    i < |reports| && forall j :: i < j < |reports| ==> KeyOf(reports[j]) != KeyOf(reports[i])
  }

  /** The index holds the last report of every key, and nothing else. */
  lemma {:induction false} ByNameIs(reports: seq<Report>, k: Key)
    ensures k in ByName(reports) <==> exists r :: r in reports && KeyOf(r) == k
    ensures k in ByName(reports) ==> exists i: nat :: LastWithKey(reports, i) && KeyOf(reports[i]) == k && ByName(reports)[k] == reports[i]
  {
    if reports != [] {
      var n := |reports| - 1;
      ByNameIs(reports[..n], k);
      assert reports == reports[..n] + [reports[n]];
      if KeyOf(reports[n]) == k {
        assert reports[n] in reports && LastWithKey(reports, n);
      } else if k in ByName(reports[..n]) {
        var i: nat :| LastWithKey(reports[..n], i) && KeyOf(reports[i]) == k && ByName(reports[..n])[k] == reports[i];
        assert LastWithKey(reports, i);
      }
    }
  }

  /** An orphan root is named by a part of its namespace, and no listed report has its name. */
  lemma OrphansAre(reports: seq<Report>, k: Key)
    ensures k in OrphanRoots(ByName(reports), reports) <==>
      && (exists p :: p in reports && p.ann.mode == "part" && k == (p.namespace, p.ann.root))
      && (forall r :: r in reports ==> KeyOf(r) != k)
  {
    ByNameIs(reports, k);
    if p :| p in reports && p.ann.mode == "part" && k == (p.namespace, p.ann.root) {
      assert IsOrphan(ByName(reports), p) <==> k !in ByName(reports);
    }
  }

  // ------------------------------------------------------------ every report is counted

  /** A report that is neither ordinary nor a part. */
  function IsRoot(r: Report): bool {
    r.ann.mode != "" && r.ann.mode != "part"
  }

  function IsRejected(sha: string -> string, byName: Index): Report -> bool {
    (r: Report) => IsRoot(r) && !Reassemble(sha, byName, r).Done?
  }

  /** The tally of a list, one by one. */
  ghost predicate Counted(t: Tally, reports: seq<Report>, rejected: Report -> bool) {
    && Filter(t.complete, IsOrdinary) == Filter(reports, IsOrdinary)
    && |Filter(t.complete, IsRoot)| + t.incomplete == |Filter(reports, IsRoot)|
    && t.incomplete == |Filter(reports, rejected)|
  }

  /** What the verdict on a report can be. */
  ghost predicate Fair(r: Report, v: Verdict, rejected: bool) {
    match v
    case Whole(c) => !rejected && (if IsOrdinary(r) then c == r else IsRoot(r) && IsRoot(c))
    case Skipped => r.ann.mode == "part" && !rejected
    case Incomplete => IsRoot(r) && rejected
    case Aborted => true
  }

  lemma JudgeIsFair(sha: string -> string, byName: Index, r: Report)
    ensures Fair(r, Judge(sha, byName, r), IsRejected(sha, byName)(r))
  {
    if IsRoot(r) && Reassemble(sha, byName, r).Done? { var _, _, _ := Accepted(sha, byName, r); }
  }

  lemma CountOne(t: Tally, before: seq<Report>, r: Report, v: Verdict, rejected: Report -> bool)
    requires Counted(t, before, rejected) && Fair(r, v, rejected(r)) && !v.Aborted?
    ensures Add(Some(t), v).Some? && Counted(Add(Some(t), v).value, before + [r], rejected)
  {
    FilterOne(before, r, IsOrdinary);
    FilterOne(before, r, IsRoot);
    FilterOne(before, r, rejected);
    if v.Whole? {
      FilterOne(t.complete, v.report, IsOrdinary);
      FilterOne(t.complete, v.report, IsRoot);
    }
  }

  lemma {:induction false} ScanCounts(sha: string -> string, byName: Index, reports: seq<Report>)
    requires Scan(sha, byName, reports).Some?
    ensures Counted(Scan(sha, byName, reports).value, reports, IsRejected(sha, byName))
  {
    if reports != [] {
      var n := |reports| - 1;
      ScanCounts(sha, byName, reports[..n]);
      JudgeIsFair(sha, byName, reports[n]);
      CountOne(Scan(sha, byName, reports[..n]).value, reports[..n], reports[n], Judge(sha, byName, reports[n]),
               IsRejected(sha, byName));
      assert reports == reports[..n] + [reports[n]];
    }
  }

  /**
   * Every report is accounted for: the ordinary ones are returned in their order;
   * of the manifests, and of reports with an unknown mode, each is returned or
   * counted as incomplete, and it is counted exactly if it is not accepted; the
   * rest of the count is one for each root that parts name and nobody has.
   */
  lemma EveryReportCounted(sha: string -> string, reports: seq<Report>)
    requires CompleteReports(sha, reports).Some?
    ensures var t, orphans := CompleteReports(sha, reports).value, |OrphanRoots(ByName(reports), reports)|;
      && Filter(t.complete, IsOrdinary) == Filter(reports, IsOrdinary)
      && |Filter(t.complete, IsRoot)| + t.incomplete == |Filter(reports, IsRoot)| + orphans
      && t.incomplete == |Filter(reports, IsRejected(sha, ByName(reports)))| + orphans
  {
    ScanCounts(sha, ByName(reports), reports);
  }

  // ------------------------------------------------------------ the parts annotation

  /** The parts annotation is taken exactly if it is a non-empty list of different names. */
  lemma PartNamesIff(parts: Option<Value>, names: seq<string>)
    ensures PartNames(parts) == Some(names) <==> parts == Some(Names(names)) && names != [] && Distinct(names)
  {
    if parts.Some? && parts.value.List? {
      var elems := parts.value.elems;
      if PartNames(parts) == Some(names) {
        forall i | 0 <= i < |elems| ensures elems[i] == Names(names).elems[i] {}
        assert elems == Names(names).elems;
      }
    }
    if parts == Some(Names(names)) && names != [] && Distinct(names) { NamesReadBack(names); }
  }
}
