// The one exception that reassembly does not catch: a severity that is not a
// string has no `lower`, a `report` field that is not a dict has no `get` or
// `items`, and the AttributeError ends the whole scan. When does that happen?

module Aborts {
  import opened Common
  import opened TreeHash
  import opened Partition
  import opened Reassembly

  // ------------------------------------------------------------ one list of findings

  /** A finding that is counted. */
  ghost predicate Countable(f: Value) {
    f.Dict? && Has(f.items, "severity") && Get(f.items, "severity").Str?
  }

  /** A finding with a severity that is not a string. */
  ghost predicate BadSeverity(f: Value) {
    f.Dict? && Has(f.items, "severity") && !Get(f.items, "severity").Str?
  }

  /** Finding `j` has a bad severity, and all before it are counted. */
  ghost predicate FirstBad(findings: seq<Value>, j: nat) {
    j < |findings| && BadSeverity(findings[j]) && forall i :: 0 <= i < j ==> Countable(findings[i])
  }

  lemma {:induction false} AddUpIs(buckets: seq<Py<Counts>>)
    ensures AddUp(buckets).Done? <==> forall i :: 0 <= i < |buckets| ==> buckets[i].Done?
    ensures AddUp(buckets).Escapes? <==>
      exists j: nat :: 0 <= j < |buckets| && buckets[j].Escapes? && forall i :: 0 <= i < j ==> buckets[i].Done?
  {
    if buckets != [] {
      var n := |buckets| - 1;
      var before := buckets[..n];
      AddUpIs(before);
      assert forall i :: 0 <= i < n ==> before[i] == buckets[i];
      if j :| 0 <= j < |buckets| && buckets[j].Escapes? && forall i :: 0 <= i < j ==> buckets[i].Done? {
        if j < n { assert before[j].Escapes?; }
      }
    }
  }

  /** Counting raises AttributeError if and only if the first finding that cannot be counted has a bad severity. */
  lemma SummaryEscapesIff(findings: seq<Value>)
    ensures Summary(findings).Escapes? <==> exists j: nat :: FirstBad(findings, j)
  {
    var buckets := Buckets(findings);
    AddUpIs(buckets);
    forall i | 0 <= i < |findings|
      ensures buckets[i].Done? <==> Countable(findings[i])
      ensures buckets[i].Escapes? <==> BadSeverity(findings[i])
    {
    }
    if j: nat :| FirstBad(findings, j) { assert buckets[j].Escapes?; }
    if AddUp(buckets).Escapes? {
      var j :| 0 <= j < |buckets| && buckets[j].Escapes? && forall i :: 0 <= i < j ==> buckets[i].Done?;
      assert FirstBad(findings, j);
    }
  }

  // ------------------------------------------------------------ one part, one manifest

  /** The header of the body fits the manifest's, and these are its findings. */
  ghost predicate Reached(pd: Items, data: Items, findings: seq<Value>) {
    && PyEq(Header(pd), Header(data)) && Has(pd, "vulnerabilities")
    && Iterate(Get(pd, "vulnerabilities")) == Some(findings)
  }

  /** The summary of the findings is reached, and the first one that cannot be counted has a bad severity. */
  ghost predicate BadFindings(pd: Items, data: Items) {
    exists findings, j: nat :: Reached(pd, data, findings) && FirstBad(findings, j)
  }

  /** Part `index` refers to the manifest, but its body is not a dict or its findings have a bad severity. */
  ghost predicate PartEscapes(byName: Index, r: Report, data: Items, name: string, index: nat) {
    && (r.namespace, name) in byName
    && var part := byName[(r.namespace, name)];
    && Refers(part, r, index) && (part.body.NotDict? || (part.body.Fields? && BadFindings(part.body.items, data)))
  }

  lemma CheckPartEscapesIff(byName: Index, r: Report, data: Items, name: string, index: nat)
    ensures CheckPart(byName, r, data, name, index).Escapes? <==> PartEscapes(byName, r, data, name, index)
  {
    var k := (r.namespace, name);
    if k in byName && byName[k].body.Fields? { CheckFindingsEscapesIff(byName[k].body.items, data); }
  }

  lemma CheckFindingsEscapesIff(pd: Items, data: Items)
    ensures CheckFindings(pd, data).Escapes? <==> BadFindings(pd, data)
  {
    if Has(pd, "vulnerabilities") && Iterate(Get(pd, "vulnerabilities")).Some? {
      var findings := Iterate(Get(pd, "vulnerabilities")).value;
      SummaryEscapesIff(findings);
      if CheckFindings(pd, data).Escapes? {
        var j: nat :| FirstBad(findings, j);
        assert Reached(pd, data, findings);
      }
    }
  }

  predicate Passes(byName: Index, r: Report, data: Items, names: seq<string>, k: nat) {
    k < |names| && CheckPart(byName, r, data, names[k], k).Done?
  }

  ghost predicate AllPass(byName: Index, r: Report, data: Items, names: seq<string>, n: nat) {
    forall k: nat :: k < n ==> Passes(byName, r, data, names, k)
  }

  /** The first part that does not pass is part `i`, and it escapes. */
  ghost predicate EscapesAt(byName: Index, r: Report, data: Items, names: seq<string>, i: nat) {
    i < |names| && PartEscapes(byName, r, data, names[i], i) && AllPass(byName, r, data, names, i)
  }

  /** The first part that does not pass is part `i`, by raising the exception. */
  ghost predicate StopsAt(byName: Index, r: Report, data: Items, names: seq<string>, i: nat) {
    i < |names| && CheckPart(byName, r, data, names[i], i).Escapes? && AllPass(byName, r, data, names, i)
  }

  lemma StopsIff(byName: Index, r: Report, data: Items, names: seq<string>, i: nat)
    ensures StopsAt(byName, r, data, names, i) <==> EscapesAt(byName, r, data, names, i)
  {
    if i < |names| { CheckPartEscapesIff(byName, r, data, names[i], i); }
  }

  lemma {:induction false} GatherDoneIff(byName: Index, r: Report, data: Items, names: seq<string>, n: nat)
    requires n <= |names|
    ensures Gather(byName, r, data, names, n).Done? <==> AllPass(byName, r, data, names, n)
  {
    if n > 0 {
      GatherDoneIff(byName, r, data, names, n - 1);
      GatherNext(byName, r, data, names, n);
      OneMorePasses(byName, r, data, names, n);
    }
  }

  lemma OneMorePasses(byName: Index, r: Report, data: Items, names: seq<string>, n: nat)
    requires n > 0
    ensures AllPass(byName, r, data, names, n) <==>
      AllPass(byName, r, data, names, n - 1) && Passes(byName, r, data, names, n - 1)
  {
  }

  lemma {:induction false} StopFound(byName: Index, r: Report, data: Items, names: seq<string>, n: nat) returns (i: nat)
    requires n <= |names| && Gather(byName, r, data, names, n).Escapes?
    ensures i < n && StopsAt(byName, r, data, names, i)
  {
    GatherNext(byName, r, data, names, n);
    if Gather(byName, r, data, names, n - 1).Escapes? {
      i := StopFound(byName, r, data, names, n - 1);
    } else {
      GatherDoneIff(byName, r, data, names, n - 1);
      i := n - 1;
    }
  }

  lemma {:induction false} StopStands(byName: Index, r: Report, data: Items, names: seq<string>, n: nat, i: nat)
    requires i < n <= |names| && StopsAt(byName, r, data, names, i)
    ensures Gather(byName, r, data, names, n).Escapes?
  {
    GatherNext(byName, r, data, names, n);
    if i < n - 1 {
      StopStands(byName, r, data, names, n - 1, i);
    } else {
      GatherDoneIff(byName, r, data, names, n - 1);
    }
  }

  lemma GatherNext(byName: Index, r: Report, data: Items, names: seq<string>, n: nat)
    requires 0 < n <= |names|
    ensures var before, last := Gather(byName, r, data, names, n - 1), CheckPart(byName, r, data, names[n - 1], n - 1);
      && (Gather(byName, r, data, names, n).Done? <==> before.Done? && last.Done?)
      && (Gather(byName, r, data, names, n).Escapes? <==> before.Escapes? || (before.Done? && last.Escapes?))
  {
  }

  /** Gathering the parts raises AttributeError if and only if some part is the first not to pass, and escapes. */
  lemma GatherEscapesIff(byName: Index, r: Report, data: Items, names: seq<string>)
    ensures Gather(byName, r, data, names, |names|).Escapes? <==> exists i: nat :: EscapesAt(byName, r, data, names, i)
  {
    if Gather(byName, r, data, names, |names|).Escapes? {
      var i := StopFound(byName, r, data, names, |names|);
      StopsIff(byName, r, data, names, i);
    }
    if i: nat :| EscapesAt(byName, r, data, names, i) {
      StopsIff(byName, r, data, names, i);
      StopStands(byName, r, data, names, |names|, i);
    }
  }

  /**
   * The manifest ends the scan: its annotations pass the checks, and its body is
   * not a dict; or it has no findings of its own, and the first of its parts that
   * does not pass has a body that is not a dict, or everything up to the summary
   * is right and the first finding that cannot be counted has a severity that is
   * not a string.
   */
  ghost predicate Aborting(byName: Index, r: Report) {
    Announces(r) &&
    (|| r.body.NotDict?
     || (r.body.Fields? && Bare(r.body.items)
         && exists i: nat :: EscapesAt(byName, r, r.body.items, PartNames(r.ann.parts).value, i)))
  }

  /** The findings of parts that all passed can be counted. */
  lemma GatheredCounts(sha: string -> string, byName: Index, r: Report, names: seq<string>)
    requires r.body.Fields? && Gather(byName, r, r.body.items, names, |names|).Done?
    ensures !Finish(sha, r, r.body.items, Gather(byName, r, r.body.items, names, |names|).value).Escapes?
  {
    var slices := GatherSlices(byName, r, r.body.items, names, |names|);
    forall i | 0 <= i < |slices| ensures Summary(slices[i]).Done? {
      assert PartMatches(byName, r, names[i], i, slices[i]);
    }
    SummaryFlatten(slices);
  }

  /** What the `try` block does once the checks on the manifest itself have passed. */
  lemma Reassembling(sha: string -> string, byName: Index, r: Report, data: Items, names: seq<string>)
    requires Announces(r) && PartNames(r.ann.parts) == Some(names) && r.body == Fields(data) && Bare(data)
    ensures Reassemble(sha, byName, r).Escapes? <==> Gather(byName, r, data, names, |names|).Escapes?
  {
    if Gather(byName, r, data, names, |names|).Done? { GatheredCounts(sha, byName, r, names); }
  }

  lemma JudgeAbortsIff(sha: string -> string, byName: Index, r: Report)
    ensures Judge(sha, byName, r).Aborted? <==> Aborting(byName, r)
  {
    if Announces(r) && r.body.Fields? && Bare(r.body.items) {
      Reassembling(sha, byName, r, r.body.items, PartNames(r.ann.parts).value);
      GatherEscapesIff(byName, r, r.body.items, PartNames(r.ann.parts).value);
    }
  }

  // ------------------------------------------------------------ the whole list

  ghost predicate AnyAborting(byName: Index, reports: seq<Report>) {
    exists r :: r in reports && Aborting(byName, r)
  }

  lemma OneMoreAborting(byName: Index, before: seq<Report>, last: Report)
    ensures AnyAborting(byName, before + [last]) <==> AnyAborting(byName, before) || Aborting(byName, last)
  {
    var reports := before + [last];
    assert forall r :: r in reports <==> r in before || r == last;
    if r :| r in before && Aborting(byName, r) { assert r in reports; }
    if Aborting(byName, last) { assert last in reports; }
  }

  lemma {:induction false} ScanAbortsIff(sha: string -> string, byName: Index, reports: seq<Report>)
    ensures Scan(sha, byName, reports).None? <==> AnyAborting(byName, reports)
  {
    if reports != [] {
      var n := |reports| - 1;
      ScanAbortsIff(sha, byName, reports[..n]);
      JudgeAbortsIff(sha, byName, reports[n]);
      assert reports == reports[..n] + [reports[n]];
      OneMoreAborting(byName, reports[..n], reports[n]);
      AddNone(Scan(sha, byName, reports[..n]), Judge(sha, byName, reports[n]));
    }
  }

  lemma AddNone(t: Option<Tally>, v: Verdict)
    ensures Add(t, v).None? <==> t.None? || v.Aborted?
  {
  }

  /** The scan ends in an exception if and only if some manifest in the list ends it. */
  lemma AbortsIff(sha: string -> string, reports: seq<Report>)
    ensures CompleteReports(sha, reports).None? <==> exists r :: r in reports && Aborting(ByName(reports), r)
  {
    ScanAbortsIff(sha, ByName(reports), reports);
  }

  // ------------------------------------------------------------ an example

  const MANIFEST := Report("ns", "root", Annotations("manifest", "sha256-tree-v1", "", "g", "", Some(List([Str("p")]))), Fields([]))
  const FINDINGS: Items := [Entry("vulnerabilities", List([Dict([Entry("severity", Null)])]))]
  const PART := Report("ns", "p", Annotations("part", "sha256-tree-v1", "root", "g", Decimal(0), None), Fields(FINDINGS))

  /** A manifest and its one part, with one finding whose severity is null: no report is returned at all. */
  lemma NullSeverityAborts(sha: string -> string)
    ensures CompleteReports(sha, [MANIFEST, PART]).None?
  {
    var reports := [MANIFEST, PART];
    var byName := ByName(reports);
    assert reports[..1] == [MANIFEST] && reports[..1][..0] == [];
    assert ByName(reports[..1][..0]) == map[];
    assert ByName(reports[..1]) == map[KeyOf(MANIFEST) := MANIFEST];
    assert byName[KeyOf(PART)] == PART;
    ExampleEscapes(byName, MANIFEST, []);
    assert MANIFEST in reports;
    AbortsIff(sha, reports);
  }

  lemma ExampleEscapes(byName: Index, r: Report, data: Items)
    requires r == MANIFEST && r.body == Fields(data) && ("ns", "p") in byName && byName[("ns", "p")] == PART
    ensures Aborting(byName, r)
  {
    var finding := Dict([Entry("severity", Null)]);
    var names := ["p"];
    assert names == seq(1, i requires 0 <= i < 1 => [Str("p")][i].s);
    assert PartNames(r.ann.parts) == Some(names);
    assert BadSeverity(finding);
    assert FirstBad([finding], 0);
    assert !IsHeader("vulnerabilities");
    FilterNone(FINDINGS, (e: Entry) => IsHeader(e.key));
    assert Header(FINDINGS) == Dict([]);
    assert Header([]) == Dict([]);
    assert Reached(FINDINGS, data, [finding]);
    assert EscapesAt(byName, r, data, names, 0);
  }
}
