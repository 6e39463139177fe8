// Reassembly of partitioned vulnerability reports: a manifest names its parts,
// every part is checked against the manifest, and the findings are accepted
// only when the checksum of the whole is the generation the manifest records.

module Partition {
  import opened Common
  import opened TreeHash

  // ------------------------------------------------------------ reports

  /**
   * The protocol annotations of a report; an absent one is the empty string.
   * `parts` is the JSON value of the parts annotation, None if it does not parse.
   */
  datatype Annotations = Annotations(
    mode: string,
    hashFormat: string,
    root: string,
    generation: string,
    partIndex: string,
    parts: Option<Value>)

  /** The `report` field: missing, something other than a dict (null, for one), or a dict. */
  datatype Body = Missing | NotDict | Fields(items: Items)

  /** A custom resource. */
  datatype Report = Report(namespace: string, name: string, ann: Annotations, body: Body)

  type Key = (string, string)

  function KeyOf(r: Report): Key {
    (r.namespace, r.name)
  }

  /**
   * What evaluating a Python expression gives: a value, an exception that the
   * reassembly catches (KeyError, ValueError, TypeError, OverflowError), or one
   * that it does not (AttributeError).
   */
  datatype Py<+T> = Done(value: T) | Caught | Escapes

  // ------------------------------------------------------------ Python values

  predicate Truthy(v: Value) {
    match v
    case Null => false
    case Bool(b) => b
    case Int(i) => i != 0
    case Float(bits) => bits != 0 && bits != SIGN_BIT
    case Str(s) => s != ""
    case List(elems) => elems != []
    case Dict(items) => items != []
  }

  const SIGN_BIT := 0x8000_0000_0000_0000
  const EXPONENT_ONES := 0x7FF0_0000_0000_0000

  predicate IsNaN(bits: Bits) {
    bits % SIGN_BIT > EXPONENT_ONES
  }

  /** The integer converts to a double without rounding. */
  predicate ExactDouble(i: int) {
    var m: nat := if i < 0 then -i else i;
    IntToDouble(i).Some? && (BitLength(m) <= 53 || m % Pow2(BitLength(m) - 53) == 0)
  }

  /** Python's `==` on numbers: exact, across int, float and bool. */
  predicate NumEq(a: Value, b: Value)
    requires a.Bool? || a.Int? || a.Float?
    requires b.Bool? || b.Int? || b.Float?
  {
    match a
    case Bool(x) => IntEq(if x then 1 else 0, b)
    case Int(i) => IntEq(i, b)
    case Float(w) => if b.Float? then FloatEq(w, b.bits) else IntEq(if b.Int? then b.i else if b.b then 1 else 0, a)
  }

  predicate IntEq(i: int, b: Value)
    requires b.Bool? || b.Int? || b.Float?
  {
    match b
    case Bool(x) => i == if x then 1 else 0
    case Int(j) => i == j
    case Float(w) => if i == 0 then w == 0 || w == SIGN_BIT else ExactDouble(i) && IntToDouble(i) == Some(w)
  }

  predicate FloatEq(v: Bits, w: Bits) {
    !IsNaN(v) && !IsNaN(w) && (v == w || (v % SIGN_BIT == 0 && w % SIGN_BIT == 0))
  }

  /** Python's `==` on JSON values; the order of a dict's keys does not matter. */
  predicate PyEq(a: Value, b: Value) {
    match a
    case Null => b.Null?
    case Str(s) => b == a
    case List(xs) =>
      b.List? && |xs| == |b.elems| && forall i :: 0 <= i < |xs| ==> PyEq(xs[i], b.elems[i])
    case Dict(xs) =>
      b.Dict? && |xs| == |b.items| &&
      forall i :: 0 <= i < |xs| ==> Has(b.items, xs[i].key) && PyEq(xs[i].value, Get(b.items, xs[i].key))
    case _ => (b.Bool? || b.Int? || b.Float?) && NumEq(a, b)
  }

  /** Every JSON value without a NaN equals itself. */
  ghost predicate NoNaN(v: Value) {
    match v
    case Float(bits) => !IsNaN(bits)
    case List(elems) => forall i :: 0 <= i < |elems| ==> NoNaN(elems[i])
    case Dict(items) => forall i :: 0 <= i < |items| ==> NoNaN(items[i].value)
    case _ => true
  }

  lemma {:induction false} PyEqReflexive(v: Value)
    requires NoNaN(v) && WellFormed(v)
    ensures PyEq(v, v)
  {
    match v {
      case List(elems) =>
        forall i | 0 <= i < |elems| ensures PyEq(elems[i], elems[i]) { PyEqReflexive(elems[i]); }
      case Dict(items) =>
        forall i | 0 <= i < |items|
          ensures Has(items, items[i].key) && PyEq(items[i].value, Get(items, items[i].key))
        {
          FindIs(items, items[i].key, i);
          PyEqReflexive(items[i].value);
        }
      case _ =>
    }
  }

  // ------------------------------------------------------------ summaries

  datatype Counts = Counts(critical: nat, high: nat, medium: nat, low: nat, unknown: nat) {
    function Plus(o: Counts): Counts {
      Counts(critical + o.critical, high + o.high, medium + o.medium, low + o.low, unknown + o.unknown)
    }

    function AsValue(): Value {
      Dict([Entry("criticalCount", Int(critical)), Entry("highCount", Int(high)),
            Entry("mediumCount", Int(medium)), Entry("lowCount", Int(low)),
            Entry("unknownCount", Int(unknown)), Entry("noneCount", Int(0))])
    }
  }

  const ZERO := Counts(0, 0, 0, 0, 0)

  function LowerChar(c: char): char {
    if 'A' <= c <= 'Z' then 'a' + (c - 'A') else c
  }

  /** `str.lower()` as far as the comparison with the four severity names can tell. */
  function Lower(s: string): string {
    if s == "" then "" else [LowerChar(s[0])] + Lower(s[1..])
  }

  function Bucket(severity: string): Counts {
    match Lower(severity)
    case "critical" => Counts(1, 0, 0, 0, 0)
    case "high" => Counts(0, 1, 0, 0, 0)
    case "medium" => Counts(0, 0, 1, 0, 0)
    case "low" => Counts(0, 0, 0, 1, 0)
    case _ => Counts(0, 0, 0, 0, 1)
  }

  /** `v['severity'].lower()`, as the bucket it counts in. */
  function BucketOf(finding: Value): Py<Counts> {
    if !finding.Dict? then Caught // TypeError
    else if !Has(finding.items, "severity") then Caught // KeyError
    else match Get(finding.items, "severity")
      case Str(s) => Done(Bucket(s))
      case _ => Escapes // AttributeError: not a string
  }

  /** Adds up counts, or gives the first exception raised. */
  function AddUp(buckets: seq<Py<Counts>>): Py<Counts> {
    if buckets == [] then Done(ZERO)
    else
      var n := |buckets| - 1;
      match AddUp(buckets[..n])
      case Done(sum) =>
        (match buckets[n]
         case Done(one) => Done(sum.Plus(one))
         case Caught => Caught
         case Escapes => Escapes)
      case Caught => Caught
      case Escapes => Escapes
  }

  function Buckets(findings: seq<Value>): seq<Py<Counts>> {
    seq(|findings|, i requires 0 <= i < |findings| => BucketOf(findings[i]))
  }

  /** The per-severity counts of a list of findings, or the first exception raised. */
  function Summary(findings: seq<Value>): Py<Counts> {
    AddUp(Buckets(findings))
  }

  /** Iterating a JSON value: its elements, or None for TypeError. */
  function Iterate(v: Value): Option<seq<Value>> {
    match v
    case List(elems) => Some(elems)
    case Str(s) => Some(seq(|s|, i requires 0 <= i < |s| => Str([s[i]])))
    case Dict(items) => Some(seq(|items|, i requires 0 <= i < |items| => Str(items[i].key)))
    case _ => None
  }

  // ------------------------------------------------------------ one manifest

  predicate IsHeader(key: string) {
    key != "vulnerabilities" && key != "summary" && key != "updateTimestamp"
  }

  function Header(data: Items): Value {
    Dict(Filter(data, (e: Entry) => IsHeader(e.key)))
  }

  /** The part names of a manifest: a non-empty list of different strings. */
  function PartNames(parts: Option<Value>): Option<seq<string>> {
    match parts
    case Some(List(elems)) =>
      if elems != [] && (forall i :: 0 <= i < |elems| ==> elems[i].Str?) then
        var names := seq(|elems|, i requires 0 <= i < |elems| => elems[i].s);
        if (forall i, j :: 0 <= i < j < |names| ==> names[i] != names[j]) then Some(names) else None
      else None
    case _ => None
  }

  type Index = map<Key, Report>

  /** The annotations of a part say that it is part `index` of manifest `r`. */
  predicate Refers(part: Report, r: Report, index: nat) {
    && part.ann.mode == "part"
    && part.ann.hashFormat == "sha256-tree-v1"
    && part.ann.root == r.name
    && part.ann.generation == r.ann.generation
    && part.ann.partIndex == Decimal(index)
  }

  /** The findings of part `index` of manifest `r`, if every check of the loop body passes. */
  function CheckPart(byName: Index, r: Report, data: Items, name: string, index: nat): Py<seq<Value>> {
    if (r.namespace, name) !in byName then Caught
    else
      var part := byName[(r.namespace, name)];
      if part.body.Missing? || !Refers(part, r, index) then Caught
      else if part.body.NotDict? then Escapes // AttributeError: no `items`
      else CheckFindings(part.body.items, data)
  }

  /** The findings of a part with this body, if they fit the manifest's body. */
  function CheckFindings(pd: Items, data: Items): Py<seq<Value>> {
    if !PyEq(Header(pd), Header(data)) || !Has(pd, "vulnerabilities") then Caught
    else match Iterate(Get(pd, "vulnerabilities"))
      case None => Caught
      case Some(findings) =>
        match Summary(findings)
        case Done(sum) =>
          if Has(pd, "summary") && PyEq(sum.AsValue(), Get(pd, "summary")) then Done(findings) else Caught
        case Caught => Caught
        case Escapes => Escapes
  }

  /** The findings of the first `n` parts in order, or the first exception raised. */
  function Gather(byName: Index, r: Report, data: Items, names: seq<string>, n: nat): Py<seq<Value>>
    requires n <= |names|
  {
    if n == 0 then Done([])
    else match Gather(byName, r, data, names, n - 1)
      case Done(findings) =>
        (match CheckPart(byName, r, data, names[n - 1], n - 1)
         case Done(more) => Done(findings + more)
         case Caught => Caught
         case Escapes => Escapes)
      case Caught => Caught
      case Escapes => Escapes
  }

  /** The checks on the merged report. */
  function Finish(sha: string -> string, r: Report, data: Items, findings: seq<Value>): Py<Report> {
    var merged := Put(data, "vulnerabilities", List(findings));
    match Summary(findings)
    case Caught => Caught
    case Escapes => Escapes
    case Done(sum) =>
      if !Has(data, "summary") || !PyEq(sum.AsValue(), Get(data, "summary")) then Caught
      else if Digest(sha, merged) != Some(r.ann.generation) then Caught
      else Done(r.(body := Fields(merged)))
  }

  /** The annotations of a manifest pass the checks. */
  predicate Announces(r: Report) {
    r.ann.mode == "manifest" && r.ann.hashFormat == "sha256-tree-v1" && r.ann.generation != "" && PartNames(r.ann.parts).Some?
  }

  /** The manifest's own body has no findings. */
  predicate Bare(data: Items) {
    !(Has(data, "vulnerabilities") && Truthy(Get(data, "vulnerabilities")))
  }

  /** The `try` block: the merged report of a manifest, or the exception raised. */
  function Reassemble(sha: string -> string, byName: Index, r: Report): Py<Report> {
    if !Announces(r) then Caught
    else match r.body
      case Missing => Caught
      case NotDict => Escapes // AttributeError: no `get`
      case Fields(data) =>
        var names := PartNames(r.ann.parts).value;
        if !Bare(data) then Caught
        else match Gather(byName, r, data, names, |names|)
          case Done(findings) => Finish(sha, r, data, findings)
          case Caught => Caught
          case Escapes => Escapes
  }

  // ------------------------------------------------------------ the whole list

  /** `{key(r): r for r in reports}`: the last report of a key wins. */
  function ByName(reports: seq<Report>): Index {
    if reports == [] then map[]
    else
      var n := |reports| - 1;
      ByName(reports[..n])[KeyOf(reports[n]) := reports[n]]
  }

  predicate IsOrphan(byName: Index, r: Report) {
    r.ann.mode == "part" && (r.namespace, r.ann.root) !in byName
  }

  function OrphanRoots(byName: Index, reports: seq<Report>): set<Key> {
    set r | r in reports && IsOrphan(byName, r) :: (r.namespace, r.ann.root)
  }

  function IsOrdinary(r: Report): bool {
    r.ann.mode == ""
  }

  function IsPartitioned(r: Report): bool {
    r.ann.mode != ""
  }

  /** What the loop does with one report. */
  datatype Verdict = Whole(report: Report) | Skipped | Incomplete | Aborted

  function Judge(sha: string -> string, byName: Index, r: Report): Verdict {
    if r.ann.mode == "" then Whole(r)
    else if r.ann.mode == "part" then Skipped
    else match Reassemble(sha, byName, r)
      case Done(merged) => Whole(merged)
      case Caught => Incomplete
      case Escapes => Aborted
  }

  datatype Tally = Tally(complete: seq<Report>, incomplete: nat)

  function Add(t: Option<Tally>, v: Verdict): Option<Tally> {
    if t.None? then None
    else match v
      case Whole(r) => Some(Tally(t.value.complete + [r], t.value.incomplete))
      case Skipped => t
      case Incomplete => Some(Tally(t.value.complete, t.value.incomplete + 1))
      case Aborted => None
  }

  function Scan(sha: string -> string, byName: Index, reports: seq<Report>): Option<Tally> {
    if reports == [] then Some(Tally([], 0))
    else
      var n := |reports| - 1;
      Add(Scan(sha, byName, reports[..n]), Judge(sha, byName, reports[n]))
  }

  /** `complete_reports`; None where an exception escapes. */
  function CompleteReports(sha: string -> string, reports: seq<Report>): Option<Tally> {
    var byName := ByName(reports);
    match Scan(sha, byName, reports)
    case None => None
    case Some(t) => Some(Tally(t.complete, |OrphanRoots(byName, reports)| + t.incomplete))
  }

  // ------------------------------------------------------------ the loops

  method Summarize(findings: seq<Value>) returns (r: Py<Counts>)
    ensures r == Summary(findings)
  {
    var sum := ZERO;
    ghost var buckets := Buckets(findings);
    for i := 0 to |findings|
      invariant AddUp(buckets[..i]) == Done(sum)
    {
      assert buckets[..i + 1][..i] == buckets[..i];
      match BucketOf(findings[i]) {
        case Done(one) => sum := sum.Plus(one);
        case Caught =>
          AddUpFails(buckets, i + 1, Caught);
          return Caught;
        case Escapes =>
          AddUpFails(buckets, i + 1, Escapes);
          return Escapes;
      }
    }
    assert buckets[..|findings|] == buckets;
    return Done(sum);
  }

  /** The first exception is the outcome of the whole sum. */
  lemma {:induction false} AddUpFails(buckets: seq<Py<Counts>>, n: nat, failure: Py<Counts>)
    requires n <= |buckets| && AddUp(buckets[..n]) == failure && !failure.Done?
    ensures AddUp(buckets) == failure
    decreases |buckets| - n
  {
    if n < |buckets| {
      assert buckets[..n + 1][..n] == buckets[..n];
      AddUpFails(buckets, n + 1, failure);
    } else {
      assert buckets[..n] == buckets;
    }
  }

  /** The loop over the parts of one manifest. */
  method GatherParts(byName: Index, r: Report, data: Items, names: seq<string>) returns (out: Py<seq<Value>>)
    ensures out == Gather(byName, r, data, names, |names|)
  {
    var findings := [];
    for index := 0 to |names|
      invariant Gather(byName, r, data, names, index) == Done(findings)
    {
      match CheckPart(byName, r, data, names[index], index) {
        case Done(more) => findings := findings + more;
        case Caught =>
          GatherFails(byName, r, data, names, index + 1, Caught);
          return Caught;
        case Escapes =>
          GatherFails(byName, r, data, names, index + 1, Escapes);
          return Escapes;
      }
    }
    return Done(findings);
  }

  lemma {:induction false} GatherFails(byName: Index, r: Report, data: Items, names: seq<string>, n: nat, failure: Py<seq<Value>>)
    requires n <= |names| && Gather(byName, r, data, names, n) == failure && !failure.Done?
    ensures Gather(byName, r, data, names, |names|) == failure
    decreases |names| - n
  {
    if n < |names| { GatherFails(byName, r, data, names, n + 1, failure); }
  }

  method TryManifest(sha: string -> string, byName: Index, r: Report) returns (out: Py<Report>)
    ensures out == Reassemble(sha, byName, r)
  {
    if r.ann.mode != "manifest" || r.ann.hashFormat != "sha256-tree-v1" { return Caught; }
    var names := PartNames(r.ann.parts);
    if names.None? || r.body.Missing? || r.ann.generation == "" { return Caught; }
    if r.body.NotDict? { return Escapes; }
    var data := r.body.items;
    if Has(data, "vulnerabilities") && Truthy(Get(data, "vulnerabilities")) { return Caught; }
    var gathered := GatherParts(byName, r, data, names.value);
    match gathered {
      case Done(findings) => return Finish(sha, r, data, findings);
      case Caught => return Caught;
      case Escapes => return Escapes;
    }
  }

  method IndexReports(reports: seq<Report>) returns (byName: Index)
    ensures byName == ByName(reports)
  {
    byName := map[];
    for i := 0 to |reports|
      invariant byName == ByName(reports[..i])
    {
      assert reports[..i + 1][..i] == reports[..i];
      byName := byName[KeyOf(reports[i]) := reports[i]];
    }
    assert reports[..|reports|] == reports;
  }

  method FindOrphans(byName: Index, reports: seq<Report>) returns (orphans: set<Key>)
    ensures orphans == OrphanRoots(byName, reports)
  {
    orphans := {};
    for i := 0 to |reports|
      invariant orphans == OrphanRoots(byName, reports[..i])
    {
      assert reports[..i + 1] == reports[..i] + [reports[i]];
      if IsOrphan(byName, reports[i]) { orphans := orphans + {(reports[i].namespace, reports[i].ann.root)}; }
    }
    assert reports[..|reports|] == reports;
  }

  method JudgeReport(sha: string -> string, byName: Index, r: Report) returns (v: Verdict)
    ensures v == Judge(sha, byName, r)
  {
    if r.ann.mode == "" { return Whole(r); }
    if r.ann.mode == "part" { return Skipped; }
    var merged := TryManifest(sha, byName, r);
    match merged {
      case Done(whole) => return Whole(whole);
      case Caught => return Incomplete;
      case Escapes => return Aborted;
    }
  }

  lemma ScanStep(sha: string -> string, byName: Index, reports: seq<Report>, i: nat)
    requires i < |reports|
    ensures Scan(sha, byName, reports[..i + 1]) == Add(Scan(sha, byName, reports[..i]), Judge(sha, byName, reports[i]))
  {
    assert reports[..i + 1][..i] == reports[..i];
  }

  /** What one verdict does to the running tally, `offset` incomplete sets having been counted before. */
  method Count(complete: seq<Report>, incomplete: nat, v: Verdict, ghost offset: nat)
    returns (aborted: bool, complete': seq<Report>, incomplete': nat)
    requires offset <= incomplete
    ensures aborted == v.Aborted? && offset <= incomplete'
    ensures !aborted ==>
      Add(Some(Tally(complete, incomplete - offset)), v) == Some(Tally(complete', incomplete' - offset))
  {
    aborted, complete', incomplete' := false, complete, incomplete;
    match v {
      case Whole(r) => complete' := complete + [r];
      case Skipped =>
      case Incomplete => incomplete' := incomplete + 1;
      case Aborted => aborted := true;
    }
  }

  /** One report of the list. */
  method JudgeNext(sha: string -> string, byName: Index, reports: seq<Report>, i: nat,
                   complete: seq<Report>, incomplete: nat, ghost offset: nat)
    returns (aborted: bool, complete': seq<Report>, incomplete': nat)
    requires i < |reports| && offset <= incomplete
    requires Scan(sha, byName, reports[..i]) == Some(Tally(complete, incomplete - offset))
    ensures aborted ==> Scan(sha, byName, reports) == None
    ensures offset <= incomplete'
    ensures !aborted ==> Scan(sha, byName, reports[..i + 1]) == Some(Tally(complete', incomplete' - offset))
  {
    var v := JudgeReport(sha, byName, reports[i]);
    ScanStep(sha, byName, reports, i);
    aborted, complete', incomplete' := Count(complete, incomplete, v, offset);
    if aborted { ScanAborts(sha, byName, reports, i + 1); }
  }

  /** The loop over the reports, with `orphans` incomplete sets counted before it. */
  method ScanLoop(sha: string -> string, byName: Index, reports: seq<Report>, orphans: nat) returns (out: Option<Tally>)
    ensures out.None? <==> Scan(sha, byName, reports) == None
    ensures out.Some? ==> out.value.incomplete >= orphans
    ensures out.Some? ==>
      Scan(sha, byName, reports) == Some(Tally(out.value.complete, out.value.incomplete - orphans))
  {
    var complete, incomplete := [], orphans;
    for i := 0 to |reports|
      invariant incomplete >= orphans
      invariant Scan(sha, byName, reports[..i]) == Some(Tally(complete, incomplete - orphans))
    {
      var aborted;
      aborted, complete, incomplete := JudgeNext(sha, byName, reports, i, complete, incomplete, orphans);
      if aborted { return None; }
    }
    assert reports[..|reports|] == reports;
    return Some(Tally(complete, incomplete));
  }

  method CollectReports(sha: string -> string, reports: seq<Report>) returns (out: Option<Tally>)
    ensures out == CompleteReports(sha, reports)
  {
    var byName := IndexReports(reports);
    var orphans := FindOrphans(byName, reports);
    out := ScanLoop(sha, byName, reports, |orphans|);
  }

  lemma {:induction false} ScanAborts(sha: string -> string, byName: Index, reports: seq<Report>, n: nat)
    requires n <= |reports| && Scan(sha, byName, reports[..n]) == None
    ensures Scan(sha, byName, reports) == None
    decreases |reports| - n
  {
    if n < |reports| {
      assert reports[..n + 1][..n] == reports[..n];
      ScanAborts(sha, byName, reports, n + 1);
    } else {
      assert reports[..n] == reports;
    }
  }
}
