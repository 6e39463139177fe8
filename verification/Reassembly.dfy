// What reassembly guarantees: an accepted report is the one whose checksum was
// recorded, made of exactly its own parts; cutting a report up and reassembling
// it gives it back; and the order in which the API lists reports is irrelevant.

module Reassembly {
  import opened Common
  import opened TreeHash
  import opened Partition
  import opened Equality

  // ------------------------------------------------------------ accepted manifests

  /** Every report body is a proper Python dict. */
  ghost predicate ProperBodies(byName: Index) {
    forall k :: k in byName && byName[k].body.Fields? ==> WellFormed(Dict(byName[k].body.items))
  }

  /** Part `index` of an accepted manifest: what was checked about it. */
  ghost predicate PartMatches(byName: Index, r: Report, name: string, index: nat, findings: seq<Value>) {
    && (r.namespace, name) in byName
    && var part := byName[(r.namespace, name)];
    && part.ann.mode == "part" && part.ann.hashFormat == "sha256-tree-v1"
    && part.ann.root == r.name
    && part.ann.generation == r.ann.generation
    && part.ann.partIndex == Decimal(index)
    && part.body.Fields? && r.body.Fields?
    && PyEq(Header(part.body.items), Header(r.body.items))
    && Has(part.body.items, "vulnerabilities") && Has(part.body.items, "summary")
    && Iterate(Get(part.body.items, "vulnerabilities")) == Some(findings)
    && Summary(findings).Done?
    && PyEq(Summary(findings).value.AsValue(), Get(part.body.items, "summary"))
  }

  /** The per-severity sum of the slices' own summaries. */
  ghost function Total(slices: seq<seq<Value>>): Counts
    requires forall i :: 0 <= i < |slices| ==> Summary(slices[i]).Done?
  {
    if slices == [] then ZERO
    else Total(slices[..|slices| - 1]).Plus(Summary(slices[|slices| - 1]).value)
  }

  lemma {:induction false} GatherSlices(byName: Index, r: Report, data: Items, names: seq<string>, n: nat)
    returns (slices: seq<seq<Value>>)
    requires r.body == Fields(data) && n <= |names|
    requires Gather(byName, r, data, names, n).Done?
    ensures |slices| == n
    ensures forall i :: 0 <= i < n ==> PartMatches(byName, r, names[i], i, slices[i])
    ensures Gather(byName, r, data, names, n) == Done(Flatten(slices))
  {
    if n == 0 {
      slices := [];
    } else {
      var before := GatherSlices(byName, r, data, names, n - 1);
      var last := CheckPart(byName, r, data, names[n - 1], n - 1).value;
      slices := before + [last];
      assert slices[..n - 1] == before;
      FlattenSnoc(before, last);
      forall i | 0 <= i < n ensures PartMatches(byName, r, names[i], i, slices[i]) {
        if i < n - 1 { assert slices[i] == before[i]; }
      }
    }
  }

  lemma PlusAssociative(x: Counts, y: Counts, z: Counts)
    ensures x.Plus(y).Plus(z) == x.Plus(y.Plus(z))
  {
  }

  lemma {:induction false} AddUpConcat(a: seq<Py<Counts>>, b: seq<Py<Counts>>)
    requires AddUp(a).Done? && AddUp(b).Done?
    ensures AddUp(a + b) == Done(AddUp(a).value.Plus(AddUp(b).value))
  {
    if b == [] {
      assert a + b == a;
    } else {
      var n := |b| - 1;
      var whole := a + b;
      assert whole[..|whole| - 1] == a + b[..n] && whole[|whole| - 1] == b[n];
      AddUpConcat(a, b[..n]);
      PlusAssociative(AddUp(a).value, AddUp(b[..n]).value, b[n].value);
    }
  }

  lemma SummaryConcat(a: seq<Value>, b: seq<Value>)
    requires Summary(a).Done? && Summary(b).Done?
    ensures Summary(a + b) == Done(Summary(a).value.Plus(Summary(b).value))
  {
    assert Buckets(a + b) == Buckets(a) + Buckets(b);
    AddUpConcat(Buckets(a), Buckets(b));
  }

  lemma {:induction false} SummaryFlatten(slices: seq<seq<Value>>)
    requires forall i :: 0 <= i < |slices| ==> Summary(slices[i]).Done?
    ensures Summary(Flatten(slices)) == Done(Total(slices))
  {
    if slices != [] {
      var init, last := slices[..|slices| - 1], slices[|slices| - 1];
      SummaryFlatten(init);
      SummaryConcat(Flatten(init), last);
      FlattenLast(slices);
      assert Total(slices) == Total(init).Plus(Summary(last).value);
    }
  }

  /**
   * An accepted manifest: its parts are the named reports of its own namespace,
   * each with its own position and the manifest's generation; the findings are
   * the parts' findings in order; the summary is the per-severity sum of the
   * parts' summaries; the digest is the recorded generation.
   */
  lemma Accepted(sha: string -> string, byName: Index, r: Report)
    returns (names: seq<string>, slices: seq<seq<Value>>, merged: Items)
    requires Reassemble(sha, byName, r).Done?
    ensures PartNames(r.ann.parts) == Some(names) && names != [] && Distinct(names)
    ensures |slices| == |names|
    ensures forall i :: 0 <= i < |names| ==> PartMatches(byName, r, names[i], i, slices[i])
    ensures forall i :: 0 <= i < |slices| ==> Summary(slices[i]).Done?
    ensures r.body.Fields? && merged == Put(r.body.items, "vulnerabilities", List(Flatten(slices)))
    ensures Reassemble(sha, byName, r) == Done(r.(body := Fields(merged)))
    ensures Summary(Flatten(slices)) == Done(Total(slices))
    ensures Has(r.body.items, "summary")
    ensures PyEq(Total(slices).AsValue(), Get(r.body.items, "summary"))
    ensures r.ann.generation != "" && Digest(sha, merged) == Some(r.ann.generation)
    ensures r.ann.mode == "manifest" && r.ann.hashFormat == "sha256-tree-v1" && Bare(r.body.items)
  {
    names := PartNames(r.ann.parts).value;
    var data := r.body.items;
    var findings := Gather(byName, r, data, names, |names|).value;
    assert Finish(sha, r, data, findings).Done?;
    slices := GatherSlices(byName, r, data, names, |names|);
    SummaryFlatten(slices);
    merged := Put(data, "vulnerabilities", List(findings));
  }

  /** Everything that is checked about a manifest and its parts. */
  ghost predicate Acceptable(sha: string -> string, byName: Index, r: Report, names: seq<string>, slices: seq<seq<Value>>) {
    && r.ann.mode == "manifest" && r.ann.hashFormat == "sha256-tree-v1" && r.ann.generation != ""
    && PartNames(r.ann.parts) == Some(names) && r.body.Fields? && Bare(r.body.items)
    && |slices| == |names| && (forall i :: 0 <= i < |names| ==> PartMatches(byName, r, names[i], i, slices[i]))
    && (forall i :: 0 <= i < |slices| ==> Summary(slices[i]).Done?)
    && Has(r.body.items, "summary") && PyEq(Total(slices).AsValue(), Get(r.body.items, "summary"))
    && Digest(sha, Put(r.body.items, "vulnerabilities", List(Flatten(slices)))) == Some(r.ann.generation)
  }

  /** A manifest is accepted if and only if all the checks pass. */
  lemma AcceptedIff(sha: string -> string, byName: Index, r: Report)
    ensures Reassemble(sha, byName, r).Done? <==> exists names, slices :: Acceptable(sha, byName, r, names, slices)
  {
    if Reassemble(sha, byName, r).Done? {
      var names, slices, _ := Accepted(sha, byName, r);
      assert Acceptable(sha, byName, r, names, slices);
    }
    if names, slices :| Acceptable(sha, byName, r, names, slices) { AcceptableIsAccepted(sha, byName, r, names, slices); }
  }

  lemma AcceptableIsAccepted(sha: string -> string, byName: Index, r: Report, names: seq<string>, slices: seq<seq<Value>>)
    requires Acceptable(sha, byName, r, names, slices)
    ensures Reassemble(sha, byName, r) == Done(r.(body := Fields(Put(r.body.items, "vulnerabilities", List(Flatten(slices))))))
  {
    var data := r.body.items;
    forall i | 0 <= i < |slices| ensures Yields(byName, r, data, names, i, slices[i]) {
      MatchingYields(byName, r, names, i, slices[i]);
    }
    GatherAll(byName, r, data, names, slices);
    SummaryFlatten(slices);
    Reassembled(sha, byName, r, data, names, Flatten(slices));
  }

  lemma MatchingYields(byName: Index, r: Report, names: seq<string>, i: nat, findings: seq<Value>)
    requires i < |names| && PartMatches(byName, r, names[i], i, findings)
    ensures Yields(byName, r, r.body.items, names, i, findings)
  {
  }

  lemma ProperFindings(pd: Items, findings: seq<Value>, v: Value)
    requires WellFormed(Dict(pd)) && Has(pd, "vulnerabilities")
    requires Iterate(Get(pd, "vulnerabilities")) == Some(findings) && v in findings
    ensures WellFormed(v)
  {
    assert WellFormed(pd[Find(pd, "vulnerabilities")].value);
  }

  lemma ProperPut(data: Items, key: string, v: Value)
    requires WellFormed(Dict(data)) && WellFormed(v)
    ensures WellFormed(Dict(Put(data, key, v)))
  {
    PutUnique(data, key, v);
  }

  /**
   * Whatever is accepted is the report whose digest the manifest records as its
   * generation, up to what the checksum ignores (or a hash collision is at hand).
   */
  lemma AcceptedIsTheRecordedReport(sha: string -> string, byName: Index, r: Report, original: Items)
    requires Reassemble(sha, byName, r).Done?
    requires ProperBodies(byName) && (r.body.Fields? ==> WellFormed(Dict(r.body.items)))
    requires WellFormed(Dict(original)) && Digest(sha, original) == Some(r.ann.generation)
    ensures var merged := Reassemble(sha, byName, r).value.body;
            && merged.Fields? && ReportStream(merged.items).Some?
            && (|| SameContent(merged.items, original)
                || Collision(sha, ReportStream(merged.items).value, ReportStream(original).value))
  {
    var names, slices, merged := Accepted(sha, byName, r);
    var findings := Flatten(slices);
    forall i | 0 <= i < |findings| ensures WellFormed(findings[i]) {
      FlattenMember(slices, findings[i]);
      var j :| 0 <= j < |slices| && findings[i] in slices[j];
      assert PartMatches(byName, r, names[j], j, slices[j]);
      ProperFindings(byName[(r.namespace, names[j])].body.items, slices[j], findings[i]);
    }
    ProperPut(r.body.items, "vulnerabilities", List(findings));
    EqualDigests(sha, merged, original);
  }

  // ------------------------------------------------------------ disjoint parts

  ghost predicate PartOf(r: Report, k: Key) {
    PartNames(r.ann.parts).Some? && k.0 == r.namespace && k.1 in PartNames(r.ann.parts).value
  }

  /** No part serves two accepted manifests, and no manifest is a part. */
  lemma PartsDisjoint(sha: string -> string, byName: Index, r: Report, s: Report, k: Key)
    requires Reassemble(sha, byName, r).Done? && Reassemble(sha, byName, s).Done?
    requires PartOf(r, k) && PartOf(s, k)
    ensures KeyOf(r) == KeyOf(s)
    ensures k in byName && byName[k].ann.mode == "part"
  {
    var rn, rs, _ := Accepted(sha, byName, r);
    var sn, ss, _ := Accepted(sha, byName, s);
    var i :| 0 <= i < |rn| && rn[i] == k.1;
    var j :| 0 <= j < |sn| && sn[j] == k.1;
    assert PartMatches(byName, r, rn[i], i, rs[i]);
    assert PartMatches(byName, s, sn[j], j, ss[j]);
  }

  /**
   * Nothing but whole reports is returned: ordinary ones as they were listed, and
   * manifests with their annotations; no part is returned on its own.
   */
  lemma OnlyWholeReports(sha: string -> string, byName: Index, reports: seq<Report>, c: Report)
    requires Scan(sha, byName, reports).Some?
    ensures c in Scan(sha, byName, reports).value.complete <==>
            exists r :: r in reports && Judge(sha, byName, r) == Whole(c)
    ensures c in Scan(sha, byName, reports).value.complete ==>
            c.ann.mode != "part" && exists r :: r in reports && WholeOf(r, c)
  {
    ScanWhole(sha, byName, reports, c);
    if r :| r in reports && Judge(sha, byName, r) == Whole(c) {
      if r.ann.mode != "" { var _, _, _ := Accepted(sha, byName, r); }
      assert WholeOf(r, c);
    }
  }

  /** `c` is the report `r`, if that is an ordinary one, or the manifest `r` with another body. */
  predicate WholeOf(r: Report, c: Report) {
    if r.ann.mode == "" then c == r else r.ann.mode == "manifest" && c == r.(body := c.body)
  }

  lemma {:induction false} ScanWhole(sha: string -> string, byName: Index, reports: seq<Report>, c: Report)
    requires Scan(sha, byName, reports).Some?
    ensures c in Scan(sha, byName, reports).value.complete <==>
            exists r :: r in reports && Judge(sha, byName, r) == Whole(c)
  {
    if reports != [] {
      var n := |reports| - 1;
      var before, v := Scan(sha, byName, reports[..n]), Judge(sha, byName, reports[n]);
      ScanWhole(sha, byName, reports[..n], c);
      assert Scan(sha, byName, reports) == Add(before, v);
      if r :| r in reports && Judge(sha, byName, r) == Whole(c) {
        assert r in reports[..n] || r == reports[n];
      }
    }
  }

  // ------------------------------------------------------------ order of the input

  /** Reports with the same namespace and name are the same report. */
  ghost predicate UniqueNames(reports: seq<Report>) {
    forall r, s :: r in reports && s in reports && KeyOf(r) == KeyOf(s) ==> r == s
  }

  lemma {:induction false} ByNameLookup(reports: seq<Report>, k: Key)
    requires UniqueNames(reports)
    ensures k in ByName(reports) ==> ByName(reports)[k] in reports && KeyOf(ByName(reports)[k]) == k
    ensures forall r :: r in reports && KeyOf(r) == k ==> k in ByName(reports) && ByName(reports)[k] == r
  {
    if reports != [] {
      var n := |reports| - 1;
      assert reports == reports[..n] + [reports[n]];
      ByNameLookup(reports[..n], k);
    }
  }

  lemma SameByName(a: seq<Report>, b: seq<Report>)
    requires multiset(a) == multiset(b) && UniqueNames(a)
    ensures UniqueNames(b) && ByName(a) == ByName(b)
  {
    forall r ensures r in a <==> r in b {
      assert r in a <==> r in multiset(a);
      assert r in b <==> r in multiset(b);
    }
    forall k
      ensures k in ByName(a) <==> k in ByName(b)
      ensures k in ByName(a) ==> ByName(a)[k] == ByName(b)[k]
    {
      ByNameLookup(a, k);
      ByNameLookup(b, k);
    }
  }

  ghost predicate SameTally(x: Option<Tally>, y: Option<Tally>) {
    x.Some? == y.Some? &&
    (x.Some? ==>
      multiset(x.value.complete) == multiset(y.value.complete) && x.value.incomplete == y.value.incomplete)
  }

  lemma AddRespects(x: Option<Tally>, y: Option<Tally>, v: Verdict)
    requires SameTally(x, y)
    ensures SameTally(Add(x, v), Add(y, v))
  {
  }

  lemma AddCommutes(t: Option<Tally>, v: Verdict, w: Verdict)
    ensures SameTally(Add(Add(t, v), w), Add(Add(t, w), v))
  {
    if t.Some? && v.Whole? && w.Whole? { SwapLast(t.value.complete, v.report, w.report); }
  }

  lemma SwapLast<T>(s: seq<T>, x: T, y: T)
    ensures multiset((s + [x]) + [y]) == multiset((s + [y]) + [x])
  {
  }

  lemma SameTallyTransitive(x: Option<Tally>, y: Option<Tally>, z: Option<Tally>)
    requires SameTally(x, y) && SameTally(y, z)
    ensures SameTally(x, z)
  {
  }

  /** The tally of a list of verdicts. */
  ghost function Tallied(verdicts: seq<Verdict>): Option<Tally> {
    if verdicts == [] then Some(Tally([], 0))
    else Add(Tallied(verdicts[..|verdicts| - 1]), verdicts[|verdicts| - 1])
  }

  function Judging(sha: string -> string, byName: Index): Report -> Verdict {
    (r: Report) => Judge(sha, byName, r)
  }

  lemma {:induction false} ScanIsTally(sha: string -> string, byName: Index, reports: seq<Report>)
    ensures Scan(sha, byName, reports) == Tallied(Map(Judging(sha, byName), reports))
  {
    if reports != [] {
      var n := |reports| - 1;
      ScanIsTally(sha, byName, reports[..n]);
      assert Map(Judging(sha, byName), reports)[..n] == Map(Judging(sha, byName), reports[..n]);
    }
  }

  /** One verdict can be counted last instead of in its place. */
  lemma {:induction false} TallyMove(verdicts: seq<Verdict>, j: nat)
    requires j < |verdicts|
    ensures SameTally(Tallied(verdicts), Add(Tallied(Without(verdicts, j)), verdicts[j]))
  {
    var n := |verdicts| - 1;
    if j == n {
      assert Without(verdicts, j) == verdicts[..n];
    } else {
      var c := Without(verdicts[..n], j);
      TallyMove(verdicts[..n], j);
      LastTwo(Tallied(verdicts[..n]), Tallied(c), verdicts[j], verdicts[n]);
      assert Without(verdicts, j) == c + [verdicts[n]];
      assert (c + [verdicts[n]])[..|c|] == c;
    }
  }

  /** Adding `v` to `y` gives `x`; then `w` can be added before it. */
  lemma LastTwo(x: Option<Tally>, y: Option<Tally>, v: Verdict, w: Verdict)
    requires SameTally(x, Add(y, v))
    ensures SameTally(Add(x, w), Add(Add(y, w), v))
  {
    AddRespects(x, Add(y, v), w);
    AddCommutes(y, v, w);
    SameTallyTransitive(Add(x, w), Add(Add(y, v), w), Add(Add(y, w), v));
  }

  lemma {:induction false} TallyPermuted(a: seq<Verdict>, b: seq<Verdict>)
    requires multiset(a) == multiset(b)
    ensures SameTally(Tallied(a), Tallied(b))
  {
    assert |multiset(a)| == |a| && |multiset(b)| == |b|;
    if a != [] {
      var n := |a| - 1;
      assert a[n] in multiset(b);
      var j :| 0 <= j < |b| && b[j] == a[n];
      var c := Without(b, j);
      WithoutMultiset(b, j);
      WithoutMultiset(a, n);
      assert Without(a, n) == a[..n];
      TallyPermuted(a[..n], c);
      AddRespects(Tallied(a[..n]), Tallied(c), a[n]);
      TallyMove(b, j);
      SameTallyTransitive(Tallied(a), Add(Tallied(c), a[n]), Tallied(b));
    }
  }

  lemma ScanPermuted(sha: string -> string, byName: Index, a: seq<Report>, b: seq<Report>)
    requires multiset(a) == multiset(b)
    ensures SameTally(Scan(sha, byName, a), Scan(sha, byName, b))
  {
    ScanIsTally(sha, byName, a);
    ScanIsTally(sha, byName, b);
    MapPermuted(Judging(sha, byName), a, b);
    TallyPermuted(Map(Judging(sha, byName), a), Map(Judging(sha, byName), b));
  }

  /** Listing the reports in another order changes neither the reports returned nor the count. */
  lemma OrderIrrelevant(sha: string -> string, a: seq<Report>, b: seq<Report>)
    requires multiset(a) == multiset(b) && UniqueNames(a)
    ensures SameTally(CompleteReports(sha, a), CompleteReports(sha, b))
  {
    SameByName(a, b);
    var byName := ByName(a);
    ScanPermuted(sha, byName, a, b);
    forall r ensures r in a <==> r in b {
      assert r in a <==> r in multiset(a);
      assert r in b <==> r in multiset(b);
    }
    assert OrphanRoots(byName, a) == OrphanRoots(byName, b);
  }

  // ------------------------------------------------------------ splitting and back

  /** A part as the protocol prescribes it: the report with one slice of the findings. */
  function PartReport(root: Report, original: Items, name: string, index: nat, slice: seq<Value>, sum: Counts): Report {
    Report(root.namespace, name,
           Annotations("part", "sha256-tree-v1", root.name, root.ann.generation, Decimal(index), None),
           Fields(Put(Put(original, "vulnerabilities", List(slice)), "summary", sum.AsValue())))
  }

  function Names(names: seq<string>): Value {
    List(seq(|names|, i requires 0 <= i < |names| => Str(names[i])))
  }

  /** The manifest: the report without findings, naming its parts and its generation. */
  function ManifestReport(namespace: string, name: string, original: Items, names: seq<string>, generation: string): Report {
    Report(namespace, name,
           Annotations("manifest", "sha256-tree-v1", "", generation, "", Some(Names(names))),
           Fields(Put(original, "vulnerabilities", List([]))))
  }

  lemma PutPut(data: Items, key: string, v: Value, w: Value)
    ensures Put(Put(data, key, v), key, w) == Put(data, key, w)
  {
    FindIs(Put(data, key, v), key, Find(data, key));
  }

  lemma PutSame(data: Items, key: string)
    requires Has(data, key)
    ensures Put(data, key, Get(data, key)) == data
  {
  }

  lemma {:induction false} HeaderPut(data: Items, key: string, v: Value)
    requires !IsHeader(key)
    ensures Header(Put(data, key, v)) == Header(data)
  {
    var p := (e: Entry) => IsHeader(e.key);
    var i := Find(data, key);
    if i < |data| {
      assert data == data[..i] + [data[i]] + data[i + 1..];
      assert Put(data, key, v) == data[..i] + [Entry(key, v)] + data[i + 1..];
      FilterConcat(data[..i] + [data[i]], data[i + 1..], p);
      FilterConcat(data[..i], [data[i]], p);
      FilterConcat(data[..i] + [Entry(key, v)], data[i + 1..], p);
      FilterConcat(data[..i], [Entry(key, v)], p);
    } else {
      FilterConcat(data, [Entry(key, v)], p);
    }
  }

  lemma CountsEqual(sum: Counts)
    ensures PyEq(sum.AsValue(), sum.AsValue())
  {
    CountsWellFormed(sum);
    PyEqReflexive(sum.AsValue());
  }

  lemma CountsWellFormed(sum: Counts)
    ensures WellFormed(sum.AsValue())
  {
    var items := sum.AsValue().items;
    assert |items[0].key| == 13 && |items[1].key| == 9 && |items[2].key| == 11;
    assert |items[3].key| == 8 && |items[4].key| == 12 && |items[5].key| == 9;
    assert items[1].key[0] == 'h' && items[5].key[0] == 'n';
    assert UniqueKeys(items);
  }

  lemma {:induction false} HeaderReflexive(data: Items)
    requires NoNaN(Dict(data)) && WellFormed(Dict(data))
    ensures PyEq(Header(data), Header(data))
  {
    var p := (e: Entry) => IsHeader(e.key);
    var h := Filter(data, p);
    FilterUnique(data, p);
    forall i | 0 <= i < |h| ensures NoNaN(h[i].value) && WellFormed(h[i].value) {
      FilterMember(data, p, h[i]);
      var j :| 0 <= j < |data| && data[j] == h[i];
    }
    PyEqReflexive(Dict(h));
  }

  lemma {:induction false} SplitPart(byName: Index, original: Items, r: Report, name: string, index: nat, slice: seq<Value>)
    requires WellFormed(Dict(original)) && NoNaN(Dict(original))
    requires Has(original, "vulnerabilities") && Has(original, "summary")
    requires Summary(slice).Done?
    requires (r.namespace, name) in byName
    requires byName[(r.namespace, name)] == PartReport(r, original, name, index, slice, Summary(slice).value)
    ensures CheckPart(byName, r, Put(original, "vulnerabilities", List([])), name, index) == Done(slice)
  {
    var sum := Summary(slice).value.AsValue();
    var sliced := Put(original, "vulnerabilities", List(slice));
    var pd := Put(sliced, "summary", sum);
    HeaderPut(original, "vulnerabilities", List(slice));
    HeaderPut(sliced, "summary", sum);
    HeaderPut(original, "vulnerabilities", List([]));
    HeaderReflexive(original);
    PutLookup(original, "vulnerabilities", List(slice), "vulnerabilities");
    PutLookup(sliced, "summary", sum, "vulnerabilities");
    PutLookup(sliced, "summary", sum, "summary");
    assert "vulnerabilities" != "summary";
    CountsEqual(Summary(slice).value);
  }

  /** `r` is the manifest, and the parts are among `reports`, of a report cut into slices. */
  ghost predicate Split(sha: string -> string, reports: seq<Report>, r: Report, original: Items,
                        names: seq<string>, slices: seq<seq<Value>>)
  {
    && Has(original, "vulnerabilities") && Get(original, "vulnerabilities") == List(Flatten(slices))
    && |names| == |slices| > 0 && Distinct(names)
    && (forall i :: 0 <= i < |slices| ==> Summary(slices[i]).Done?)
    && Has(original, "summary") && PyEq(Total(slices).AsValue(), Get(original, "summary"))
    && Digest(sha, original).Some? && Digest(sha, original) != Some("")
    && r == ManifestReport(r.namespace, r.name, original, names, Digest(sha, original).value)
    && (forall i :: 0 <= i < |slices| ==>
          PartReport(r, original, names[i], i, slices[i], Summary(slices[i]).value) in reports)
  }

  /**
   * Reassembly undoes splitting: a report cut into one or more slices of its
   * findings, written as a manifest and parts among any other reports, comes
   * back exactly as it was.
   */
  lemma SplitReassembles(sha: string -> string, reports: seq<Report>, r: Report, original: Items,
                         names: seq<string>, slices: seq<seq<Value>>)
    requires Split(sha, reports, r, original, names, slices)
    requires WellFormed(Dict(original)) && NoNaN(Dict(original))
    requires UniqueNames(reports)
    ensures Reassemble(sha, ByName(reports), r) == Done(r.(body := Fields(original)))
  {
    NamesReadBack(names);
    SplitGather(sha, reports, r, original, names, slices);
    SplitFinish(sha, r, original, slices);
    PutLookup(original, "vulnerabilities", List([]), "vulnerabilities");
    Reassembled(sha, ByName(reports), r, Put(original, "vulnerabilities", List([])), names, Flatten(slices));
  }

  lemma Reassembled(sha: string -> string, byName: Index, r: Report, data: Items, names: seq<string>, findings: seq<Value>)
    requires Announces(r) && PartNames(r.ann.parts) == Some(names) && r.body == Fields(data) && Bare(data)
    requires Gather(byName, r, data, names, |names|) == Done(findings)
    ensures Reassemble(sha, byName, r) == Finish(sha, r, data, findings)
  {
  }

  lemma SplitGather(sha: string -> string, reports: seq<Report>, r: Report, original: Items,
                    names: seq<string>, slices: seq<seq<Value>>)
    requires Split(sha, reports, r, original, names, slices)
    requires WellFormed(Dict(original)) && NoNaN(Dict(original))
    requires UniqueNames(reports)
    ensures Gather(ByName(reports), r, Put(original, "vulnerabilities", List([])), names, |names|)
            == Done(Flatten(slices))
  {
    var data := Put(original, "vulnerabilities", List([]));
    forall i | 0 <= i < |slices|
      ensures Yields(ByName(reports), r, data, names, i, slices[i])
    {
      FoundPart(reports, r, original, names[i], i, slices[i]);
    }
    GatherAll(ByName(reports), r, data, names, slices);
  }

  lemma FoundPart(reports: seq<Report>, r: Report, original: Items, name: string, i: nat, slice: seq<Value>)
    requires WellFormed(Dict(original)) && NoNaN(Dict(original)) && UniqueNames(reports)
    requires Has(original, "vulnerabilities") && Has(original, "summary") && Summary(slice).Done?
    requires PartReport(r, original, name, i, slice, Summary(slice).value) in reports
    ensures CheckPart(ByName(reports), r, Put(original, "vulnerabilities", List([])), name, i) == Done(slice)
  {
    var part := PartReport(r, original, name, i, slice, Summary(slice).value);
    ByNameLookup(reports, (r.namespace, name));
    assert KeyOf(part) == (r.namespace, name);
    SplitPart(ByName(reports), original, r, name, i, slice);
  }

  /** A report that was split is among the complete reports, whatever else the list holds. */
  lemma SplitIsReported(sha: string -> string, reports: seq<Report>, r: Report, original: Items,
                        names: seq<string>, slices: seq<seq<Value>>)
    requires Split(sha, reports, r, original, names, slices) && r in reports
    requires WellFormed(Dict(original)) && NoNaN(Dict(original))
    requires UniqueNames(reports) && CompleteReports(sha, reports).Some?
    ensures r.(body := Fields(original)) in CompleteReports(sha, reports).value.complete
  {
    SplitReassembles(sha, reports, r, original, names, slices);
    OnlyWholeReports(sha, ByName(reports), reports, r.(body := Fields(original)));
    assert Judge(sha, ByName(reports), r) == Whole(r.(body := Fields(original)));
  }

  lemma NamesReadBack(names: seq<string>)
    requires names != [] && Distinct(names)
    ensures PartNames(Some(Names(names))) == Some(names)
  {
    var parts := Names(names).elems;
    assert seq(|parts|, i requires 0 <= i < |parts| => parts[i].s) == names;
  }

  lemma SplitFinish(sha: string -> string, r: Report, original: Items, slices: seq<seq<Value>>)
    requires Has(original, "vulnerabilities") && Get(original, "vulnerabilities") == List(Flatten(slices))
    requires forall i :: 0 <= i < |slices| ==> Summary(slices[i]).Done?
    requires Has(original, "summary") && PyEq(Total(slices).AsValue(), Get(original, "summary"))
    requires Digest(sha, original) == Some(r.ann.generation)
    ensures Finish(sha, r, Put(original, "vulnerabilities", List([])), Flatten(slices))
            == Done(r.(body := Fields(original)))
  {
    SummaryFlatten(slices);
    PutPut(original, "vulnerabilities", List([]), List(Flatten(slices)));
    PutSame(original, "vulnerabilities");
    PutLookup(original, "vulnerabilities", List([]), "summary");
    assert "vulnerabilities" != "summary";
  }

  /** Part `i` passes with these findings. */
  ghost predicate Yields(byName: Index, r: Report, data: Items, names: seq<string>, i: nat, findings: seq<Value>) {
    i < |names| && CheckPart(byName, r, data, names[i], i) == Done(findings)
  }

  lemma {:induction false} GatherAll(byName: Index, r: Report, data: Items, names: seq<string>, slices: seq<seq<Value>>)
    requires |slices| <= |names|
    requires forall i :: 0 <= i < |slices| ==> Yields(byName, r, data, names, i, slices[i])
    ensures Gather(byName, r, data, names, |slices|) == Done(Flatten(slices))
  {
    if slices != [] {
      var n := |slices| - 1;
      GatherAll(byName, r, data, names, slices[..n]);
      FlattenLast(slices);
      GatherOne(byName, r, data, names, n, Flatten(slices[..n]), slices[n]);
    }
  }

  lemma GatherOne(byName: Index, r: Report, data: Items, names: seq<string>, n: nat, before: seq<Value>, last: seq<Value>)
    requires n < |names| && Gather(byName, r, data, names, n) == Done(before) && Yields(byName, r, data, names, n, last)
    ensures Gather(byName, r, data, names, n + 1) == Done(before + last)
  {
  }

  // ------------------------------------------------------------ writing and reading back

  /** What the protocol's writer stores for a report cut into slices: the manifest and the parts. */
  function Written(manifest: Report, original: Items, names: seq<string>, slices: seq<seq<Value>>): seq<Report>
    requires |names| == |slices| && forall i :: 0 <= i < |slices| ==> Summary(slices[i]).Done?
  {
    [manifest] + Parts(manifest, original, names, slices)
  }

  function Parts(manifest: Report, original: Items, names: seq<string>, slices: seq<seq<Value>>): seq<Report>
    requires |names| == |slices| && forall i :: 0 <= i < |slices| ==> Summary(slices[i]).Done?
  {
    seq(|names|, i requires 0 <= i < |names| =>
      PartReport(manifest, original, names[i], i, slices[i], Summary(slices[i]).value))
  }

  /** The report can be cut this way: the slices are its findings, its summary is right, its digest is not empty. */
  ghost predicate Cuttable(sha: string -> string, original: Items, slices: seq<seq<Value>>) {
    && WellFormed(Dict(original)) && NoNaN(Dict(original))
    && Has(original, "vulnerabilities") && Get(original, "vulnerabilities") == List(Flatten(slices))
    && slices != [] && (forall i :: 0 <= i < |slices| ==> Summary(slices[i]).Done?)
    && Has(original, "summary") && PyEq(Total(slices).AsValue(), Get(original, "summary"))
    && Digest(sha, original).Some? && Digest(sha, original) != Some("")
  }

  lemma {:induction false} PartsAreSkipped(sha: string -> string, byName: Index, before: seq<Report>, parts: seq<Report>)
    requires forall i :: 0 <= i < |parts| ==> parts[i].ann.mode == "part"
    ensures Scan(sha, byName, before + parts) == Scan(sha, byName, before)
  {
    if parts == [] {
      assert before + parts == before;
    } else {
      var n := |parts| - 1;
      assert (before + parts)[..|before| + n] == before + parts[..n];
      assert (before + parts)[|before| + n] == parts[n];
      PartsAreSkipped(sha, byName, before, parts[..n]);
    }
  }

  lemma PartAt(manifest: Report, original: Items, names: seq<string>, slices: seq<seq<Value>>, i: nat)
    requires |names| == |slices| && forall i :: 0 <= i < |slices| ==> Summary(slices[i]).Done?
    requires 0 < i <= |names|
    ensures var r := Written(manifest, original, names, slices)[i];
      r.name == names[i - 1] && r.namespace == manifest.namespace && r.ann.root == manifest.name && r.ann.mode == "part"
  {
  }

  lemma WrittenNames(manifest: Report, original: Items, names: seq<string>, slices: seq<seq<Value>>)
    requires |names| == |slices| && forall i :: 0 <= i < |slices| ==> Summary(slices[i]).Done?
    requires Distinct(names) && manifest.name !in names
    ensures UniqueNames(Written(manifest, original, names, slices))
  {
    var all := Written(manifest, original, names, slices);
    forall r, s | r in all && s in all && KeyOf(r) == KeyOf(s) ensures r == s {
      var i :| 0 <= i < |all| && all[i] == r;
      var j :| 0 <= j < |all| && all[j] == s;
      if i > 0 { PartAt(manifest, original, names, slices, i); }
      if j > 0 { PartAt(manifest, original, names, slices, j); }
      assert i == j;
    }
  }

  /**
   * Writing a report as manifest and parts and reading the list back gives
   * exactly that report and nothing incomplete.
   */
  lemma WriteThenRead(sha: string -> string, namespace: string, name: string, original: Items,
                      names: seq<string>, slices: seq<seq<Value>>)
    requires Cuttable(sha, original, slices)
    requires |names| == |slices| && Distinct(names) && name !in names
    ensures var manifest := ManifestReport(namespace, name, original, names, Digest(sha, original).value);
      CompleteReports(sha, Written(manifest, original, names, slices))
      == Some(Tally([manifest.(body := Fields(original))], 0))
  {
    var manifest := ManifestReport(namespace, name, original, names, Digest(sha, original).value);
    var parts := Parts(manifest, original, names, slices);
    var all := Written(manifest, original, names, slices);
    WrittenNames(manifest, original, names, slices);
    WrittenIsSplit(sha, manifest, original, names, slices);
    SplitReassembles(sha, all, manifest, original, names, slices);
    NoOrphans(manifest, original, names, slices);
    OneManifest(sha, ByName(all), manifest, manifest.(body := Fields(original)));
    PartsAreSkipped(sha, ByName(all), [manifest], parts);
    Completed(sha, all, Tally([manifest.(body := Fields(original))], 0));
  }

  lemma Completed(sha: string -> string, reports: seq<Report>, tally: Tally)
    requires Scan(sha, ByName(reports), reports) == Some(tally) && OrphanRoots(ByName(reports), reports) == {}
    ensures CompleteReports(sha, reports) == Some(tally)
  {
  }

  lemma WrittenIsSplit(sha: string -> string, manifest: Report, original: Items, names: seq<string>, slices: seq<seq<Value>>)
    requires Cuttable(sha, original, slices) && |names| == |slices| && Distinct(names)
    requires manifest == ManifestReport(manifest.namespace, manifest.name, original, names, Digest(sha, original).value)
    ensures Split(sha, Written(manifest, original, names, slices), manifest, original, names, slices)
  {
    forall i | 0 <= i < |slices|
      ensures PartReport(manifest, original, names[i], i, slices[i], Summary(slices[i]).value)
           in Written(manifest, original, names, slices)
    {
      PartIsWritten(manifest, original, names, slices, i);
    }
  }

  lemma PartIsWritten(manifest: Report, original: Items, names: seq<string>, slices: seq<seq<Value>>, i: nat)
    requires |names| == |slices| && (forall i :: 0 <= i < |slices| ==> Summary(slices[i]).Done?) && i < |slices|
    ensures PartReport(manifest, original, names[i], i, slices[i], Summary(slices[i]).value)
         in Written(manifest, original, names, slices)
  {
    assert Written(manifest, original, names, slices)[i + 1] == Parts(manifest, original, names, slices)[i];
  }

  lemma OneManifest(sha: string -> string, byName: Index, manifest: Report, merged: Report)
    requires manifest.ann.mode == "manifest" && Reassemble(sha, byName, manifest) == Done(merged)
    ensures Scan(sha, byName, [manifest]) == Some(Tally([merged], 0))
  {
    assert [manifest][..0] == [];
    assert Judge(sha, byName, manifest) == Whole(merged);
    assert [] + [merged] == [merged];
  }

  lemma NoOrphans(manifest: Report, original: Items, names: seq<string>, slices: seq<seq<Value>>)
    requires |names| == |slices| && forall i :: 0 <= i < |slices| ==> Summary(slices[i]).Done?
    requires UniqueNames(Written(manifest, original, names, slices)) && manifest.ann.mode == "manifest"
    ensures var all := Written(manifest, original, names, slices); OrphanRoots(ByName(all), all) == {}
  {
    var all := Written(manifest, original, names, slices);
    assert all[0] == manifest;
    ByNameLookup(all, KeyOf(manifest));
    forall r | r in all ensures !IsOrphan(ByName(all), r) {
      var i :| 0 <= i < |all| && all[i] == r;
      if i > 0 { PartAt(manifest, original, names, slices, i); }
    }
  }
}
