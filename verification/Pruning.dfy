// The Kubernetes API drops null fields from what it stores. A split report
// whose manifest and parts were pruned that way is still accepted, with the
// same content.

module Pruning {
  import opened Common
  import opened TreeHash
  import opened Partition
  import opened Reassembly
  import opened Equality

  // ------------------------------------------------------------ pruning

  /** The value without the null fields of its dicts, at every level. */
  function Prune(v: Value): Value
    decreases v, 0
  {
    match v
    case List(elems) => List(PruneList(elems))
    case Dict(items) => Dict(PruneItems(items))
    case _ => v
  }

  function PruneList(elems: seq<Value>): (r: seq<Value>)
    ensures |r| == |elems|
    decreases elems, 0
  {
    if elems == [] then [] else [Prune(elems[0])] + PruneList(elems[1..])
  }

  function PruneItems(items: Items): Items
    decreases items, 0
  {
    if items == [] then []
    else if items[0].value.Null? then PruneItems(items[1..])
    else [Entry(items[0].key, Prune(items[0].value))] + PruneItems(items[1..])
  }

  function PruneReport(r: Report): Report {
    if r.body.Fields? then r.(body := Fields(PruneItems(r.body.items))) else r
  }

  function PruneIndex(byName: Index): Index {
    map k | k in byName :: PruneReport(byName[k])
  }

  lemma {:induction false} PruneListAt(elems: seq<Value>, i: nat)
    requires i < |elems|
    ensures PruneList(elems)[i] == Prune(elems[i])
  {
    if i > 0 { PruneListAt(elems[1..], i - 1); }
  }

  lemma {:induction false} PruneListConcat(a: seq<Value>, b: seq<Value>)
    ensures PruneList(a + b) == PruneList(a) + PruneList(b)
  {
    if a == [] {
      assert a + b == b;
    } else {
      assert (a + b)[1..] == a[1..] + b;
      PruneListConcat(a[1..], b);
    }
  }

  /** Pruning keeps exactly the live fields. */
  lemma {:induction false} PruneLookup(items: Items, k: string)
    requires UniqueKeys(items)
    ensures Has(PruneItems(items), k) <==> Live(items, k)
    ensures Live(items, k) ==> Get(PruneItems(items), k) == Prune(Get(items, k))
  {
    if items != [] {
      PruneLookup(items[1..], k);
      if items[0].key == k { FirstKeyOnce(items); }
    }
  }

  lemma {:induction false} PruneUnique(items: Items)
    requires UniqueKeys(items)
    ensures UniqueKeys(PruneItems(items))
  {
    if items != [] {
      PruneUnique(items[1..]);
      var rest := PruneItems(items[1..]);
      FirstKeyOnce(items);
      PruneLookup(items[1..], items[0].key);
      assert Find(rest, items[0].key) == |rest|;
    }
  }

  lemma {:induction false} PruneWellFormed(v: Value)
    requires WellFormed(v)
    ensures WellFormed(Prune(v))
    decreases v, 0
  {
    match v {
      case List(elems) =>
        forall i | 0 <= i < |elems| ensures WellFormed(PruneList(elems)[i]) {
          PruneListAt(elems, i);
          PruneWellFormed(elems[i]);
        }
      case Dict(items) =>
        PruneUnique(items);
        PruneItemsWellFormed(items);
      case _ =>
    }
  }

  lemma {:induction false} PruneItemsWellFormed(items: Items)
    requires forall i :: 0 <= i < |items| ==> WellFormed(items[i].value)
    ensures forall i :: 0 <= i < |PruneItems(items)| ==> WellFormed(PruneItems(items)[i].value)
    decreases items, 0
  {
    if items != [] {
      PruneWellFormed(items[0].value);
      PruneItemsWellFormed(items[1..]);
    }
  }

  // ------------------------------------------------------------ the checksum does not see it

  /** Pruning changes nothing the checksum sees. */
  lemma {:induction false} PruneNormal(v: Value)
    requires Encodable(v)
    ensures Encodable(Prune(v)) && Normal(Prune(v)) == Normal(v)
    decreases v, 0
  {
    match v {
      case List(elems) => PruneNormalList(elems);
      case Dict(items) => PruneNormalItems(items);
      case _ =>
    }
  }

  lemma {:induction false} PruneNormalList(elems: seq<Value>)
    requires forall i :: 0 <= i < |elems| ==> Encodable(elems[i])
    ensures forall i :: 0 <= i < |elems| ==> Encodable(PruneList(elems)[i])
    ensures NormalList(PruneList(elems)) == NormalList(elems)
    decreases elems, 0
  {
    if elems != [] {
      PruneNormal(elems[0]);
      PruneNormalList(elems[1..]);
      assert PruneList(elems)[1..] == PruneList(elems[1..]);
    }
  }

  lemma {:induction false} PruneNormalItems(items: Items)
    requires forall i :: 0 <= i < |items| ==> Encodable(items[i].value)
    ensures forall i :: 0 <= i < |PruneItems(items)| ==> Encodable(PruneItems(items)[i].value)
    ensures NormalItems(PruneItems(items)) == NormalItems(items)
    decreases items, 0
  {
    if items != [] {
      PruneNormalItems(items[1..]);
      if !items[0].value.Null? {
        PruneNormal(items[0].value);
        assert PruneItems(items)[1..] == PruneItems(items[1..]);
      }
    }
  }

  /** A value and its pruned form feed the hash the same bytes. */
  lemma PruneKeepsStream(v: Value)
    requires Encodable(v) && WellFormed(v)
    ensures Encodable(Prune(v)) && Stream(Prune(v)) == Stream(v)
  {
    PruneNormal(v);
    PruneWellFormed(v);
    SameStream(Prune(v), v);
  }

  // ------------------------------------------------------------ Python's equality

  lemma {:induction false} PruneSize(items: Items)
    ensures |PruneItems(items)| == |LiveKeys(items)|
  {
    if items != [] { PruneSize(items[1..]); }
  }

  lemma SameLive(a: Items, b: Items)
    requires UniqueKeys(a) && UniqueKeys(b) && PyEq(Dict(a), Dict(b))
    ensures |PruneItems(a)| == |PruneItems(b)|
    ensures forall k :: Live(a, k) <==> Live(b, k)
    ensures forall k :: Live(a, k) ==> PyEq(Get(a, k), Get(b, k))
  {
    forall k ensures Live(a, k) <==> Live(b, k)
             ensures Live(a, k) ==> PyEq(Get(a, k), Get(b, k))
             ensures k in LiveKeys(a) <==> k in LiveKeys(b) {
      SameKeys(a, b, k);
      LiveKeysMember(a, k);
      LiveKeysMember(b, k);
      if Has(a, k) { assert a[Find(a, k)].key == k && PyEq(a[Find(a, k)].value, Get(b, k)); }
    }
    SameSortedLive(a, b);
    PruneSize(a);
    PruneSize(b);
    assert |LiveKeys(a)| == |multiset(LiveKeys(a))| == |multiset(Sort(LiveKeys(a)))| == |SortedLive(a)|;
    assert |LiveKeys(b)| == |multiset(LiveKeys(b))| == |multiset(Sort(LiveKeys(b)))| == |SortedLive(b)|;
  }

  /** Equal values stay equal. */
  lemma {:induction false} PruneKeepsEqual(a: Value, b: Value)
    requires WellFormed(a) && WellFormed(b) && PyEq(a, b)
    ensures PyEq(Prune(a), Prune(b))
    decreases a
  {
    match a {
      case List(xs) =>
        forall i | 0 <= i < |xs| ensures PyEq(PruneList(xs)[i], PruneList(b.elems)[i]) {
          PruneListAt(xs, i);
          PruneListAt(b.elems, i);
          PruneKeepsEqual(xs[i], b.elems[i]);
        }
      case Dict(xs) =>
        SameLive(xs, b.items);
        PruneUnique(xs);
        var ps, qs := PruneItems(xs), PruneItems(b.items);
        forall i | 0 <= i < |ps| ensures Has(qs, ps[i].key) && PyEq(ps[i].value, Get(qs, ps[i].key)) {
          var k := ps[i].key;
          FindIs(ps, k, i);
          PruneLookup(xs, k);
          PruneLookup(b.items, k);
          PruneKeepsEqual(Get(xs, k), Get(b.items, k));
        }
      case _ =>
    }
  }

  lemma {:induction false} PruneFilter(items: Items, p: Entry -> bool)
    requires forall e: Entry, f: Entry :: e.key == f.key ==> p(e) == p(f)
    ensures Filter(PruneItems(items), p) == PruneItems(Filter(items, p))
  {
    if items != [] {
      var rest := PruneItems(items[1..]);
      PruneFilter(items[1..], p);
      if !items[0].value.Null? {
        var e := Entry(items[0].key, Prune(items[0].value));
        assert ([e] + rest)[1..] == rest;
        assert p(e) == p(items[0]);
      }
      if p(items[0]) { assert ([items[0]] + Filter(items[1..], p))[1..] == Filter(items[1..], p); }
    }
  }

  lemma PruneHeader(data: Items)
    ensures Header(PruneItems(data)) == Prune(Header(data))
  {
    PruneFilter(data, (e: Entry) => IsHeader(e.key));
  }

  // ------------------------------------------------------------ summaries

  lemma PruneBucket(finding: Value)
    requires WellFormed(finding) && BucketOf(finding).Done?
    ensures BucketOf(Prune(finding)) == BucketOf(finding)
  {
    PruneLookup(finding.items, "severity");
  }

  lemma {:induction false} AllBucketsDone(buckets: seq<Py<Counts>>, i: nat)
    requires AddUp(buckets).Done? && i < |buckets|
    ensures buckets[i].Done?
  {
    if i < |buckets| - 1 { AllBucketsDone(buckets[..|buckets| - 1], i); }
  }

  /** Pruned findings are counted as before. */
  lemma PruneSummary(findings: seq<Value>)
    requires Summary(findings).Done? && forall i :: 0 <= i < |findings| ==> WellFormed(findings[i])
    ensures Summary(PruneList(findings)) == Summary(findings)
  {
    var a, b := Buckets(findings), Buckets(PruneList(findings));
    forall i | 0 <= i < |a| ensures b[i] == a[i] {
      AllBucketsDone(a, i);
      PruneListAt(findings, i);
      PruneBucket(findings[i]);
    }
    assert a == b;
  }

  /** What can be iterated into findings that are counted is a list, or empty. */
  lemma PruneIterate(v: Value, findings: seq<Value>)
    requires Iterate(v) == Some(findings) && Summary(findings).Done?
    ensures Iterate(Prune(v)) == Some(PruneList(findings))
  {
    if !v.List? && findings != [] {
      AllBucketsDone(Buckets(findings), 0);
      assert BucketOf(findings[0]).Done?;
    }
  }

  lemma PruneCounts(sum: Counts, v: Value)
    requires WellFormed(v) && PyEq(sum.AsValue(), v)
    ensures PyEq(sum.AsValue(), Prune(v)) && !v.Null?
  {
    CountsWellFormed(sum);
    PruneKeepsEqual(sum.AsValue(), v);
    CountsKept(sum);
  }

  lemma CountsKept(sum: Counts)
    ensures Prune(sum.AsValue()) == sum.AsValue()
  {
    CountsPruned(sum.AsValue().items);
  }

  lemma {:induction false} CountsPruned(items: Items)
    requires forall i :: 0 <= i < |items| ==> items[i].value.Int?
    ensures PruneItems(items) == items
  {
    if items != [] { CountsPruned(items[1..]); }
  }

  // ------------------------------------------------------------ reassembly

  /** The field is there and is not null. */
  lemma FieldPruned(data: Items, k: string)
    requires WellFormed(Dict(data)) && Has(data, k) && !Get(data, k).Null?
    ensures Has(PruneItems(data), k) && Get(PruneItems(data), k) == Prune(Get(data, k))
    ensures WellFormed(Get(data, k))
  {
    PruneLookup(data, k);
    assert WellFormed(data[Find(data, k)].value);
  }

  /** A part that passes its checks passes them after pruning. */
  lemma PruneCheckPart(byName: Index, r: Report, data: Items, name: string, index: nat)
    requires ProperBodies(byName) && WellFormed(Dict(data))
    requires CheckPart(byName, r, data, name, index).Done?
    ensures CheckPart(PruneIndex(byName), PruneReport(r), PruneItems(data), name, index)
         == Done(PruneList(CheckPart(byName, r, data, name, index).value))
  {
    PruneCheckFindings(byName[(r.namespace, name)].body.items, data);
  }

  lemma PruneCheckFindings(pd: Items, data: Items)
    requires WellFormed(Dict(pd)) && WellFormed(Dict(data)) && CheckFindings(pd, data).Done?
    ensures CheckFindings(PruneItems(pd), PruneItems(data)) == Done(PruneList(CheckFindings(pd, data).value))
  {
    var findings := CheckFindings(pd, data).value;
    PruneSameHeader(pd, data);
    FieldPruned(pd, "vulnerabilities");
    PruneIterate(Get(pd, "vulnerabilities"), findings);
    PrunePartSummary(pd, findings);
  }

  lemma PrunePartSummary(pd: Items, findings: seq<Value>)
    requires WellFormed(Dict(pd)) && Has(pd, "vulnerabilities") && Iterate(Get(pd, "vulnerabilities")) == Some(findings)
    requires Summary(findings).Done? && Has(pd, "summary") && PyEq(Summary(findings).value.AsValue(), Get(pd, "summary"))
    ensures Summary(PruneList(findings)) == Summary(findings)
    ensures Has(PruneItems(pd), "summary") && PyEq(Summary(findings).value.AsValue(), Get(PruneItems(pd), "summary"))
  {
    forall i | 0 <= i < |findings| ensures WellFormed(findings[i]) {
      ProperFindings(pd, findings, findings[i]);
    }
    PruneSummary(findings);
    assert WellFormed(pd[Find(pd, "summary")].value);
    PruneCounts(Summary(findings).value, Get(pd, "summary"));
    FieldPruned(pd, "summary");
  }

  lemma PruneSameHeader(a: Items, b: Items)
    requires WellFormed(Dict(a)) && WellFormed(Dict(b)) && PyEq(Header(a), Header(b))
    ensures PyEq(Header(PruneItems(a)), Header(PruneItems(b)))
  {
    HeaderWellFormed(a);
    HeaderWellFormed(b);
    PruneKeepsEqual(Header(a), Header(b));
    PruneHeader(a);
    PruneHeader(b);
  }

  lemma HeaderWellFormed(data: Items)
    requires WellFormed(Dict(data))
    ensures WellFormed(Header(data))
  {
    var p := (e: Entry) => IsHeader(e.key);
    var h := Filter(data, p);
    FilterUnique(data, p);
    forall i | 0 <= i < |h| ensures WellFormed(h[i].value) {
      FilterMember(data, p, h[i]);
      var j :| 0 <= j < |data| && data[j] == h[i];
    }
  }

  lemma {:induction false} PruneGather(byName: Index, r: Report, data: Items, names: seq<string>, n: nat)
    requires ProperBodies(byName) && WellFormed(Dict(data)) && n <= |names|
    requires Gather(byName, r, data, names, n).Done?
    ensures Gather(PruneIndex(byName), PruneReport(r), PruneItems(data), names, n)
         == Done(PruneList(Gather(byName, r, data, names, n).value))
  {
    if n > 0 {
      PruneGather(byName, r, data, names, n - 1);
      PruneCheckPart(byName, r, data, names[n - 1], n - 1);
      PruneListConcat(Gather(byName, r, data, names, n - 1).value, CheckPart(byName, r, data, names[n - 1], n - 1).value);
    }
  }

  /** The merged report, from pruned pieces: the same content. */
  lemma PruneMerged(data: Items, findings: seq<Value>)
    requires WellFormed(Dict(data)) && forall i :: 0 <= i < |findings| ==> WellFormed(findings[i])
    requires Encodable(ReportTree(Put(data, "vulnerabilities", List(findings))))
    ensures var merged, merged' := Put(data, "vulnerabilities", List(findings)),
                                   Put(PruneItems(data), "vulnerabilities", List(PruneList(findings)));
      && WellFormed(Dict(merged)) && WellFormed(Dict(merged')) && Encodable(ReportTree(merged'))
      && SameContent(merged', merged)
  {
    var merged, merged' := Put(data, "vulnerabilities", List(findings)),
                           Put(PruneItems(data), "vulnerabilities", List(PruneList(findings)));
    ProperPut(data, "vulnerabilities", List(findings));
    PruneWellFormed(Dict(data));
    PruneWellFormed(List(findings));
    ProperPut(PruneItems(data), "vulnerabilities", List(PruneList(findings)));
    ReportTreeWellFormed(merged');
    forall k | k in SortedLive(ReportTree(merged').items) ensures Encodable(Get(ReportTree(merged').items, k)) {
      MergedField(data, findings, k);
      SortedLiveMember(ReportTree(merged').items, k);
      PutLookup(merged', "updateTimestamp", Null, k);
    }
    LiveFieldsSuffice(ReportTree(merged'));
    forall k | k != "updateTimestamp" ensures Field(merged', k) == Field(merged, k) { MergedField(data, findings, k); }
  }

  /** One field of the merged report. */
  lemma MergedField(data: Items, findings: seq<Value>, k: string)
    requires WellFormed(Dict(data)) && Encodable(ReportTree(Put(data, "vulnerabilities", List(findings))))
    ensures var merged, merged' := Put(data, "vulnerabilities", List(findings)),
                                   Put(PruneItems(data), "vulnerabilities", List(PruneList(findings)));
      && (Live(merged', k) <==> Live(merged, k))
      && (k != "updateTimestamp" && Live(merged, k) ==>
            && Encodable(Get(merged, k)) && Encodable(Get(merged', k))
            && Normal(Get(merged', k)) == Normal(Get(merged, k)))
  {
    var merged := Put(data, "vulnerabilities", List(findings));
    PutLookup(data, "vulnerabilities", List(findings), k);
    PutLookup(PruneItems(data), "vulnerabilities", List(PruneList(findings)), k);
    PruneLookup(data, k);
    if k != "updateTimestamp" && Live(merged, k) {
      PutOther(merged, k);
      PruneNormal(Get(merged, k));
    }
  }

  lemma PruneFinish(sha: string -> string, r: Report, data: Items, findings: seq<Value>)
    requires WellFormed(Dict(data)) && forall i :: 0 <= i < |findings| ==> WellFormed(findings[i])
    requires Finish(sha, r, data, findings).Done?
    ensures Finish(sha, PruneReport(r), PruneItems(data), PruneList(findings))
         == Done(PruneReport(r).(body := Fields(Put(PruneItems(data), "vulnerabilities", List(PruneList(findings))))))
    ensures Encodable(ReportTree(Put(data, "vulnerabilities", List(findings))))
  {
    PruneSummary(findings);
    assert WellFormed(data[Find(data, "summary")].value);
    PruneCounts(Summary(findings).value, Get(data, "summary"));
    FieldPruned(data, "summary");
    PruneMerged(data, findings);
    ReportStreamEqualIffSameContent(Put(PruneItems(data), "vulnerabilities", List(PruneList(findings))),
                                    Put(data, "vulnerabilities", List(findings)));
  }

  /** A manifest that is accepted is still accepted when everything is pruned, with the same content. */
  lemma PruningIsInvisible(sha: string -> string, byName: Index, r: Report)
    requires ProperBodies(byName) && (r.body.Fields? ==> WellFormed(Dict(r.body.items)))
    requires Reassemble(sha, byName, r).Done?
    ensures var before, after := Reassemble(sha, byName, r), Reassemble(sha, PruneIndex(byName), PruneReport(r));
      && after.Done? && KeyOf(after.value) == KeyOf(r) && after.value.ann == r.ann
      && before.value.body.Fields? && after.value.body.Fields?
      && Encodable(ReportTree(before.value.body.items)) && Encodable(ReportTree(after.value.body.items))
      && SameContent(after.value.body.items, before.value.body.items)
  {
    var names, slices, _ := Accepted(sha, byName, r);
    var data, findings := r.body.items, Flatten(slices);
    GatheredIs(sha, byName, r, names, slices);
    GatheredProper(byName, r, names, slices);
    PruneGather(byName, r, data, names, |names|);
    PruneFinish(sha, r, data, findings);
    PruneMerged(data, findings);
    NoFindings(data);
    PrunedReassembly(sha, byName, r, names, findings);
  }

  lemma GatheredIs(sha: string -> string, byName: Index, r: Report, names: seq<string>, slices: seq<seq<Value>>)
    requires r.body.Fields? && PartNames(r.ann.parts) == Some(names) && Reassemble(sha, byName, r).Done?
    requires Reassemble(sha, byName, r)
          == Done(r.(body := Fields(Put(r.body.items, "vulnerabilities", List(Flatten(slices))))))
    ensures Gather(byName, r, r.body.items, names, |names|) == Done(Flatten(slices))
    ensures Finish(sha, r, r.body.items, Flatten(slices)) == Reassemble(sha, byName, r)
    ensures Announces(r)
    ensures Bare(r.body.items)
  {
    var data := r.body.items;
    var findings := Gather(byName, r, data, names, |names|).value;
    PutLookup(data, "vulnerabilities", List(findings), "vulnerabilities");
    PutLookup(data, "vulnerabilities", List(Flatten(slices)), "vulnerabilities");
  }

  lemma GatheredProper(byName: Index, r: Report, names: seq<string>, slices: seq<seq<Value>>)
    requires ProperBodies(byName) && |names| == |slices|
    requires forall i :: 0 <= i < |names| ==> PartMatches(byName, r, names[i], i, slices[i])
    ensures forall i :: 0 <= i < |Flatten(slices)| ==> WellFormed(Flatten(slices)[i])
  {
    var findings := Flatten(slices);
    forall i | 0 <= i < |findings| ensures WellFormed(findings[i]) {
      FlattenMember(slices, findings[i]);
      var j :| 0 <= j < |slices| && findings[i] in slices[j];
      assert PartMatches(byName, r, names[j], j, slices[j]);
      ProperFindings(byName[(r.namespace, names[j])].body.items, slices[j], findings[i]);
    }
  }

  lemma PrunedReassembly(sha: string -> string, byName: Index, r: Report, names: seq<string>, findings: seq<Value>)
    requires r.body.Fields? && PartNames(r.ann.parts) == Some(names)
    requires Announces(r)
    requires var data := PruneItems(r.body.items);
      && Bare(data)
      && Gather(PruneIndex(byName), PruneReport(r), data, names, |names|) == Done(PruneList(findings))
    ensures Reassemble(sha, PruneIndex(byName), PruneReport(r))
         == Finish(sha, PruneReport(r), PruneItems(r.body.items), PruneList(findings))
  {
  }

  lemma NoFindings(data: Items)
    requires UniqueKeys(data) && Bare(data)
    ensures Bare(PruneItems(data))
  {
    PruneLookup(data, "vulnerabilities");
  }
}
