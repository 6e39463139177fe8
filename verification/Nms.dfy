// Greedy non-maximum suppression over face detections: walk the boxes from the
// best score down, keep the first one left, drop everything that overlaps it.

module Nms {
  import opened Common

  /** A detection; coordinates over the reals, so rounding is not modelled. */
  datatype Box = Box(x1: real, y1: real, x2: real, y2: real, score: real)

  function MinR(a: real, b: real): real {
    if a < b then a else b
  }

  /** The length of a side; coordinates are inclusive. */
  function Side(lo: real, hi: real): real {
    hi - lo + 1.0
  }

  /** How much of a side two boxes share. */
  function Shared(lo: real, hi: real, lo': real, hi': real): real {
    MaxReal(0.0, Side(MaxReal(lo, lo'), MinR(hi, hi')))
  }

  function Area(b: Box): real {
    Side(b.x1, b.x2) * Side(b.y1, b.y2)
  }

  function Inter(a: Box, b: Box): real {
    Shared(a.x1, a.x2, b.x1, b.x2) * Shared(a.y1, a.y2, b.y1, b.y2)
  }

  function Union(a: Box, b: Box): real {
    Area(a) + Area(b) - Inter(a, b)
  }

  /** `ovr <= thresh`; where the union is 0 the quotient is infinite or NaN and the comparison false. */
  predicate Survives(a: Box, b: Box, thresh: real) {
    Union(a, b) != 0.0 && Inter(a, b) / Union(a, b) <= thresh
  }

  /** Box `j` survives the kept box `i`. */
  predicate Clears(dets: seq<Box>, thresh: real, i: nat, j: nat) {
    i < |dets| && j < |dets| && Survives(dets[i], dets[j], thresh)
  }

  function Apart(dets: seq<Box>, thresh: real, i: nat): nat -> bool {
    (j: nat) => Clears(dets, thresh, i, j)
  }

  /** All indices, best score first. */
  ghost predicate Ranking(dets: seq<Box>, order: seq<nat>) {
    && Distinct(order) && (forall i: nat :: i in order <==> i < |dets|)
    && forall p, q :: 0 <= p < q < |order| && order[p] < |dets| && order[q] < |dets| ==>
         dets[order[p]].score >= dets[order[q]].score
  }

  function Greedy(dets: seq<Box>, thresh: real, order: seq<nat>): seq<nat>
    decreases |order|
  {
    if order == [] then []
    else [order[0]] + Greedy(dets, thresh, Filter(order[1..], Apart(dets, thresh, order[0])))
  }

  /** `_nms`, with the result of the argsort as a parameter. */
  method NmsLoop(dets: seq<Box>, thresh: real, ranking: seq<nat>) returns (keep: seq<nat>)
    requires Ranking(dets, ranking)
    ensures keep == Greedy(dets, thresh, ranking)
    ensures Suppressed(dets, thresh, ranking, SetOf(keep))
  {
    var order := ranking;
    keep := [];
    while order != []
      invariant keep + Greedy(dets, thresh, order) == Greedy(dets, thresh, ranking)
      decreases |order|
    {
      var i := order[0];
      var rest := Filter(order[1..], Apart(dets, thresh, i));
      assert keep + ([i] + Greedy(dets, thresh, rest)) == (keep + [i]) + Greedy(dets, thresh, rest);
      keep := keep + [i];
      order := rest;
    }
    GreedySuppresses(dets, thresh, ranking);
  }

  // ------------------------------------------------------------ what is kept

  /** `y` comes before `x`. */
  predicate Before(order: seq<nat>, y: nat, x: nat) {
    order != [] && (if order[0] == y then x in order[1..] else Before(order[1..], y, x))
  }

  /** No kept box ranked before `x` overlaps it too much. */
  ghost predicate Clear(dets: seq<Box>, thresh: real, order: seq<nat>, keep: set<nat>, x: nat) {
    forall y :: y in keep && Before(order, y, x) ==> Clears(dets, thresh, y, x)
  }

  /** The rule: a box is kept exactly if no kept box ranked before it overlaps it too much. */
  ghost predicate Suppressed(dets: seq<Box>, thresh: real, order: seq<nat>, keep: set<nat>) {
    && (forall x :: x in keep ==> x in order)
    && (forall x :: x in order ==> (x in keep <==> Clear(dets, thresh, order, keep, x)))
  }

  lemma {:induction false} BeforeFilter(s: seq<nat>, p: nat -> bool, y: nat, x: nat)
    requires p(x) && p(y)
    ensures Before(Filter(s, p), y, x) <==> Before(s, y, x)
  {
    if s != [] {
      BeforeFilter(s[1..], p, y, x);
      FilterMember(s[1..], p, x);
      if p(s[0]) { assert Filter(s, p)[1..] == Filter(s[1..], p); }
    }
  }

  lemma {:induction false} FilterDistinct(s: seq<nat>, p: nat -> bool)
    requires Distinct(s)
    ensures Distinct(Filter(s, p))
  {
    if s != [] {
      FilterDistinct(s[1..], p);
      FilterMember(s[1..], p, s[0]);
      assert s[0] !in s[1..];
    }
  }

  lemma {:induction false} BeforeMember(s: seq<nat>, y: nat, x: nat)
    requires Before(s, y, x)
    ensures y in s && x in s
  {
    if s[0] != y { BeforeMember(s[1..], y, x); }
  }

  /** The greedy result obeys the rule. */
  lemma {:induction false} GreedySuppresses(dets: seq<Box>, thresh: real, order: seq<nat>)
    requires Distinct(order)
    ensures Suppressed(dets, thresh, order, SetOf(Greedy(dets, thresh, order)))
    decreases |order|
  {
    if order != [] {
      var h, t := order[0], order[1..];
      var p := Apart(dets, thresh, h);
      var rest := Filter(t, p);
      assert order == [h] + t;
      FilterDistinct(t, p);
      GreedySuppresses(dets, thresh, rest);
      var keep, keep' := SetOf(Greedy(dets, thresh, order)), SetOf(Greedy(dets, thresh, rest));
      assert Greedy(dets, thresh, order) == [h] + Greedy(dets, thresh, rest);
      assert keep == {h} + keep';
      forall x | x in keep ensures x in order {
        if x != h { FilterMember(t, p, x); }
      }
      forall x | x in order ensures x in keep <==> Clear(dets, thresh, order, keep, x) {
        HeadStep(dets, thresh, h, t, keep', x);
      }
    }
  }

  lemma HeadStep(dets: seq<Box>, thresh: real, h: nat, t: seq<nat>, keep': set<nat>, x: nat)
    requires Distinct([h] + t) && x in [h] + t
    requires Suppressed(dets, thresh, Filter(t, Apart(dets, thresh, h)), keep')
    ensures x in {h} + keep' <==> Clear(dets, thresh, [h] + t, {h} + keep', x)
  {
    var order, keep := [h] + t, {h} + keep';
    var p := Apart(dets, thresh, h);
    var rest := Filter(t, p);
    assert order[1..] == t && order[0] == h;
    HeadNotInTail(h, t);
    forall y | y in keep' ensures y in t && p(y) && y != h { FilterMember(t, p, y); }
    if x == h {
      forall y | y in keep ensures !Before(order, y, x) { NothingBeforeHead(order, y); }
    } else if p(x) {
      FilterMember(t, p, x);
      assert x in rest;
      forall y | y in keep' ensures Before(order, y, x) <==> Before(rest, y, x) { BeforeFilter(t, p, y, x); }
      assert Clear(dets, thresh, order, keep, x) <==> Clear(dets, thresh, rest, keep', x) by {
        assert p(x) <==> Clears(dets, thresh, h, x);
      }
    } else {
      FilterMember(t, p, x);
      assert Before(order, h, x) && !Clears(dets, thresh, h, x);
    }
  }

  lemma HeadNotInTail(h: nat, t: seq<nat>)
    requires Distinct([h] + t)
    ensures h !in t
  {
    forall i | 0 <= i < |t| ensures t[i] != h {
      assert ([h] + t)[0] == h && ([h] + t)[i + 1] == t[i];
    }
  }

  lemma NothingBeforeHead(order: seq<nat>, y: nat)
    requires order != [] && order[0] !in order[1..]
    ensures !Before(order, y, order[0])
  {
    if Before(order, y, order[0]) && order[0] != y { BeforeMember(order[1..], y, order[0]); }
  }

  lemma {:induction false} BeforeIndex(order: seq<nat>, j: nat, i: nat)
    requires Distinct(order) && j < |order| && i < |order|
    ensures Before(order, order[j], order[i]) <==> j < i
  {
    if j == 0 {
      assert order[i] in order[1..] <==> i > 0 by {
        if i > 0 { assert order[1..][i - 1] == order[i]; }
      }
    } else {
      assert order[1..][j - 1] == order[j];
      if i > 0 {
        assert order[1..][i - 1] == order[i];
        BeforeIndex(order[1..], j - 1, i - 1);
      } else if Before(order[1..], order[j], order[0]) {
        BeforeMember(order[1..], order[j], order[0]);
      }
    }
  }

  ghost predicate Agree(order: seq<nat>, a: set<nat>, b: set<nat>, k: nat) {
    forall i :: 0 <= i < k && i < |order| ==> (order[i] in a <==> order[i] in b)
  }

  lemma EarlierAgree(order: seq<nat>, a: set<nat>, b: set<nat>, k: nat, y: nat)
    requires Distinct(order) && k < |order| && Agree(order, a, b, k) && Before(order, y, order[k])
    ensures y in a <==> y in b
  {
    BeforeMember(order, y, order[k]);
    var j :| 0 <= j < |order| && order[j] == y;
    BeforeIndex(order, j, k);
  }

  lemma ClearAlike(dets: seq<Box>, thresh: real, order: seq<nat>, a: set<nat>, b: set<nat>, k: nat)
    requires Distinct(order) && k < |order| && Agree(order, a, b, k)
    ensures Clear(dets, thresh, order, a, order[k]) <==> Clear(dets, thresh, order, b, order[k])
  {
    forall y | Before(order, y, order[k]) ensures y in a <==> y in b { EarlierAgree(order, a, b, k, y); }
  }

  lemma {:induction false} AgreeUpTo(dets: seq<Box>, thresh: real, order: seq<nat>, a: set<nat>, b: set<nat>, k: nat)
    requires Distinct(order) && k <= |order|
    requires Suppressed(dets, thresh, order, a) && Suppressed(dets, thresh, order, b)
    ensures Agree(order, a, b, k)
  {
    if k > 0 {
      AgreeUpTo(dets, thresh, order, a, b, k - 1);
      ClearAlike(dets, thresh, order, a, b, k - 1);
      assert order[k - 1] in order;
    }
  }

  /** The rule determines the set of kept boxes. */
  lemma RuleIsUnique(dets: seq<Box>, thresh: real, order: seq<nat>, a: set<nat>, b: set<nat>)
    requires Distinct(order)
    requires Suppressed(dets, thresh, order, a) && Suppressed(dets, thresh, order, b)
    ensures a == b
  {
    AgreeUpTo(dets, thresh, order, a, b, |order|);
    forall x ensures x in a <==> x in b {
      if x in order { var i :| 0 <= i < |order| && order[i] == x; }
    }
  }

  // ------------------------------------------------------------ proper boxes

  ghost predicate Proper(b: Box) {
    b.x1 <= b.x2 && b.y1 <= b.y2
  }

  lemma Product(w: real, h: real, width: real, height: real)
    requires 0.0 <= w <= width && 0.0 <= h <= height
    ensures 0.0 <= w * h <= width * height
  {
    assert w * h <= width * h;
    assert width * h <= width * height;
  }

  lemma AtLeastOne(width: real, height: real)
    requires width >= 1.0 && height >= 1.0
    ensures width * height >= 1.0
  {
    assert width * height >= width * 1.0;
  }

  /** Two proper boxes meet in no more than either of them, so their union is not empty. */
  lemma InterBounds(a: Box, b: Box)
    requires Proper(a) && Proper(b)
    ensures 0.0 <= Inter(a, b) <= Area(a) && Inter(a, b) <= Area(b)
    ensures Area(a) >= 1.0 && Area(b) >= 1.0 && Union(a, b) > 0.0
  {
    InterInside(a, b);
    InterSymmetric(a, b);
    InterInside(b, a);
  }

  lemma InterSymmetric(a: Box, b: Box)
    ensures Inter(a, b) == Inter(b, a) && Union(a, b) == Union(b, a)
  {
  }

  lemma SharedInside(lo: real, hi: real, lo': real, hi': real)
    requires lo <= hi
    ensures 0.0 <= Shared(lo, hi, lo', hi') <= Side(lo, hi) && Side(lo, hi) >= 1.0
  {
  }

  lemma InterInside(a: Box, b: Box)
    requires Proper(a) && Proper(b)
    ensures 0.0 <= Inter(a, b) <= Area(a) && Area(a) >= 1.0
  {
    SharedInside(a.x1, a.x2, b.x1, b.x2);
    SharedInside(a.y1, a.y2, b.y1, b.y2);
    Product(Shared(a.x1, a.x2, b.x1, b.x2), Shared(a.y1, a.y2, b.y1, b.y2), Side(a.x1, a.x2), Side(a.y1, a.y2));
    AtLeastOne(Side(a.x1, a.x2), Side(a.y1, a.y2));
  }

  function Overlap(a: Box, b: Box): real
    requires Union(a, b) != 0.0
  {
    Inter(a, b) / Union(a, b)
  }

  /** Boxes `x` and `y` overlap by more than the threshold. */
  ghost predicate Clash(dets: seq<Box>, thresh: real, x: nat, y: nat) {
    x < |dets| && y < |dets| && Union(dets[x], dets[y]) != 0.0 && Overlap(dets[x], dets[y]) > thresh
  }

  /** No two kept boxes overlap by more than the threshold, or have a union of 0. */
  lemma KeptDoNotClash(dets: seq<Box>, thresh: real, order: seq<nat>, x: nat, y: nat)
    requires Ranking(dets, order)
    requires x in Greedy(dets, thresh, order) && y in Greedy(dets, thresh, order) && x != y
    ensures x < |dets| && y < |dets| && Union(dets[x], dets[y]) != 0.0 && Overlap(dets[x], dets[y]) <= thresh
  {
    var kept := SetOf(Greedy(dets, thresh, order));
    GreedySuppresses(dets, thresh, order);
    assert x in kept && y in kept && x in order && y in order;
    InterSymmetric(dets[x], dets[y]);
    OneComesFirst(order, x, y);
    assert Clear(dets, thresh, order, kept, x) && Clear(dets, thresh, order, kept, y);
  }

  lemma OneComesFirst(order: seq<nat>, x: nat, y: nat)
    requires Distinct(order) && x in order && y in order && x != y
    ensures Before(order, x, y) || Before(order, y, x)
  {
    var i :| 0 <= i < |order| && order[i] == x;
    var j :| 0 <= j < |order| && order[j] == y;
    BeforeIndex(order, i, j);
    BeforeIndex(order, j, i);
  }

  /** What drops a box: a kept one of at least its score, with too much overlap or a union of 0. */
  lemma DroppedBy(dets: seq<Box>, thresh: real, order: seq<nat>, x: nat) returns (y: nat)
    requires Ranking(dets, order)
    requires x < |dets| && x !in Greedy(dets, thresh, order)
    ensures y < |dets| && y != x && y in Greedy(dets, thresh, order) && dets[y].score >= dets[x].score
    ensures Before(order, y, x) && (Union(dets[y], dets[x]) == 0.0 || Clash(dets, thresh, y, x))
  {
    var kept := SetOf(Greedy(dets, thresh, order));
    GreedySuppresses(dets, thresh, order);
    assert x in order && x !in kept;
    y :| y in kept && Before(order, y, x) && !Clears(dets, thresh, y, x);
    assert y in order;
    BeforeScores(dets, order, y, x);
  }

  /** A kept box of at least the score of `x` overlaps it by more than the threshold. */
  ghost predicate Beaten(dets: seq<Box>, thresh: real, order: seq<nat>, x: nat) {
    exists y: nat :: y in Greedy(dets, thresh, order) && Before(order, y, x) && Clash(dets, thresh, y, x)
                  && dets[y].score >= dets[x].score
  }

  /** Every dropped box is beaten. */
  ghost predicate Explained(dets: seq<Box>, order: seq<nat>, thresh: real) {
    forall x: nat :: x < |dets| && x !in Greedy(dets, thresh, order) ==> Beaten(dets, thresh, order, x)
  }

  /** No two boxes have a union of 0. */
  ghost predicate Solid(dets: seq<Box>) {
    forall i, j :: 0 <= i < |dets| && 0 <= j < |dets| && i != j ==> Union(dets[i], dets[j]) != 0.0
  }

  /** Every box is dropped for its overlap, whatever the threshold, if and only if no two boxes have a union of 0. */
  lemma DropsAreOverlapsIff(dets: seq<Box>, order: seq<nat>)
    requires Ranking(dets, order)
    ensures (forall thresh :: Explained(dets, order, thresh)) <==> Solid(dets)
  {
    if Solid(dets) {
      forall thresh ensures Explained(dets, order, thresh) { SolidExplains(dets, thresh, order); }
    }
    if forall thresh :: Explained(dets, order, thresh) {
      var thresh := LooseEnough(dets);
      assert Explained(dets, order, thresh);
      ExplainedIsSolid(dets, thresh, order);
    }
  }

  lemma SolidExplains(dets: seq<Box>, thresh: real, order: seq<nat>)
    requires Ranking(dets, order) && Solid(dets)
    ensures Explained(dets, order, thresh)
  {
    forall x: nat | x < |dets| && x !in Greedy(dets, thresh, order) ensures Beaten(dets, thresh, order, x) {
      var y := DroppedBy(dets, thresh, order, x);
    }
  }

  /** No two boxes overlap by more than the threshold. */
  ghost predicate Loose(dets: seq<Box>, thresh: real) {
    forall x: nat, y: nat :: x != y ==> !Clash(dets, thresh, x, y)
  }

  /** At a threshold no overlap exceeds, only a union of 0 can drop a box. */
  lemma ExplainedIsSolid(dets: seq<Box>, thresh: real, order: seq<nat>)
    requires Ranking(dets, order) && Loose(dets, thresh) && Explained(dets, order, thresh)
    ensures Solid(dets)
  {
    forall x: nat | x < |dets| ensures x in Greedy(dets, thresh, order) {
      LooseBeatsNone(dets, thresh, order, x);
    }
    forall i, j | 0 <= i < |dets| && 0 <= j < |dets| && i != j ensures Union(dets[i], dets[j]) != 0.0 {
      KeptDoNotClash(dets, thresh, order, i, j);
    }
  }

  lemma {:induction false} BeforeDiffers(order: seq<nat>, y: nat, x: nat)
    requires Distinct(order) && Before(order, y, x)
    ensures y != x
  {
    if order[0] == y { assert y !in order[1..]; } else { BeforeDiffers(order[1..], y, x); }
  }

  lemma LooseBeatsNone(dets: seq<Box>, thresh: real, order: seq<nat>, x: nat)
    requires Distinct(order) && Loose(dets, thresh)
    ensures !Beaten(dets, thresh, order, x)
  {
    forall y: nat | Before(order, y, x) ensures !Clash(dets, thresh, y, x) { BeforeDiffers(order, y, x); }
  }

  lemma ClashFalls(dets: seq<Box>, low: real, high: real, x: nat, y: nat)
    requires low <= high && Clash(dets, high, x, y)
    ensures Clash(dets, low, x, y)
  {
  }

  lemma LooseEnough(dets: seq<Box>) returns (thresh: real)
    ensures Loose(dets, thresh)
  {
    thresh := 0.0;
    for n := 0 to |dets|
      invariant forall x: nat, y: nat :: x < n ==> !Clash(dets, thresh, x, y)
    {
      var low := thresh;
      var row := LooseRow(dets, n, |dets|);
      thresh := MaxReal(low, row);
      forall x: nat, y: nat | x <= n ensures !Clash(dets, thresh, x, y) {
        if Clash(dets, thresh, x, y) {
          ClashFalls(dets, low, thresh, x, y);
          ClashFalls(dets, row, thresh, x, y);
        }
      }
    }
  }

  lemma {:induction false} LooseRow(dets: seq<Box>, x: nat, n: nat) returns (thresh: real)
    ensures forall y: nat :: y < n ==> !Clash(dets, thresh, x, y)
  {
    thresh := 0.0;
    if n > 0 {
      var low := LooseRow(dets, x, n - 1);
      var one := LoosePair(dets, x, n - 1);
      thresh := MaxReal(low, one);
      forall y: nat | y < n ensures !Clash(dets, thresh, x, y) {
        if Clash(dets, thresh, x, y) {
          ClashFalls(dets, low, thresh, x, y);
          ClashFalls(dets, one, thresh, x, y);
        }
      }
    }
  }

  lemma LoosePair(dets: seq<Box>, x: nat, y: nat) returns (thresh: real)
    ensures !Clash(dets, thresh, x, y)
  {
    thresh := if Clash(dets, 0.0, x, y) then Overlap(dets[x], dets[y]) else 0.0;
  }

  /** Boxes with ordered corners are only dropped for their overlap. */
  lemma ProperDrops(dets: seq<Box>, thresh: real, order: seq<nat>)
    requires Ranking(dets, order) && forall b :: b in dets ==> Proper(b)
    ensures Explained(dets, order, thresh)
  {
    forall i, j | 0 <= i < |dets| && 0 <= j < |dets| && i != j ensures Union(dets[i], dets[j]) != 0.0 {
      InterBounds(dets[i], dets[j]);
    }
    SolidExplains(dets, thresh, order);
  }

  /** Of two boxes with a union of 0 the second is dropped, and that is not for an overlap. */
  lemma UnionOfNothing(dets: seq<Box>, thresh: real, order: seq<nat>)
    requires |dets| == 2 && dets[0].score >= dets[1].score && Union(dets[0], dets[1]) == 0.0
    requires |order| == 2 && order[0] == 0 && order[1] == 1
    ensures Ranking(dets, order) && Greedy(dets, thresh, order) == [0] && !Explained(dets, order, thresh)
  {
    var p := Apart(dets, thresh, 0);
    assert order[1..] == [1] && !p(1);
    FilterNone(order[1..], p);
    assert Greedy(dets, thresh, order) == [0] + Greedy(dets, thresh, []);
    assert 1 !in Greedy(dets, thresh, order) && !Clash(dets, thresh, 0, 1);
    assert !Beaten(dets, thresh, order, 1);
  }

  /** Two equal boxes without width: the second is dropped although it overlaps nothing. */
  lemma EmptyBoxesDrop(dets: seq<Box>, thresh: real, order: seq<nat>)
    requires |dets| == 2 && dets[0] == dets[1] && Side(dets[0].x1, dets[0].x2) == 0.0
    requires |order| == 2 && order[0] == 0 && order[1] == 1
    ensures Ranking(dets, order) && Greedy(dets, thresh, order) == [0] && !Explained(dets, order, thresh)
    ensures Inter(dets[0], dets[1]) == 0.0 && Union(dets[0], dets[1]) == 0.0
  {
    EmptyBox(dets[0]);
    UnionOfNothing(dets, thresh, order);
  }

  /** Boxes of areas 1 and -1, far apart: the second is dropped although both have an area and they share nothing. */
  lemma OppositeAreasDrop(dets: seq<Box>, thresh: real, order: seq<nat>)
    requires |dets| == 2 && dets[0] == Box(0.0, 0.0, 0.0, 0.0, 1.0) && dets[1] == Box(10.0, 0.0, 8.0, 0.0, 0.5)
    requires |order| == 2 && order[0] == 0 && order[1] == 1
    ensures Ranking(dets, order) && Greedy(dets, thresh, order) == [0] && !Explained(dets, order, thresh)
    ensures Area(dets[0]) == 1.0 && Area(dets[1]) == -1.0 && Inter(dets[0], dets[1]) == 0.0
  {
    OppositeAreas(dets[0], dets[1]);
    UnionOfNothing(dets, thresh, order);
  }

  lemma OppositeAreas(a: Box, b: Box)
    requires a.x1 == a.y1 == a.x2 == a.y2 == 0.0
    requires b.x1 == 10.0 && b.x2 == 8.0 && b.y1 == b.y2 == 0.0
    ensures Area(a) == 1.0 && Area(b) == -1.0 && Inter(a, b) == 0.0 && Union(a, b) == 0.0
  {
    assert Side(a.x1, a.x2) == 1.0 && Side(a.y1, a.y2) == 1.0;
    assert Side(b.x1, b.x2) == -1.0 && Side(b.y1, b.y2) == 1.0;
    assert Shared(a.x1, a.x2, b.x1, b.x2) == 0.0;
    Nothing(Shared(a.y1, a.y2, b.y1, b.y2));
  }

  lemma EmptyBox(b: Box)
    requires Side(b.x1, b.x2) == 0.0
    ensures Inter(b, b) == 0.0 && Union(b, b) == 0.0
  {
    Nothing(Side(b.y1, b.y2));
    Nothing(Shared(b.y1, b.y2, b.y1, b.y2));
  }

  lemma Nothing(height: real)
    ensures 0.0 * height == 0.0
  {
  }

  lemma BeforeScores(dets: seq<Box>, order: seq<nat>, y: nat, x: nat)
    requires Ranking(dets, order) && Before(order, y, x) && x < |dets| && y < |dets|
    ensures dets[y].score >= dets[x].score
  {
    BeforeMember(order, y, x);
    var i :| 0 <= i < |order| && order[i] == x;
    var j :| 0 <= j < |order| && order[j] == y;
    BeforeIndex(order, j, i);
  }

  /** The first ranked box is always kept, so a non-empty input keeps something. */
  lemma BestIsKept(dets: seq<Box>, thresh: real, order: seq<nat>)
    requires Ranking(dets, order) && dets != []
    ensures order != [] && Greedy(dets, thresh, order)[0] == order[0]
    ensures forall i :: 0 <= i < |dets| ==> order[0] < |dets| && dets[i].score <= dets[order[0]].score
  {
    assert 0 in order;
    assert order != [];
    forall i | 0 <= i < |dets| ensures order[0] < |dets| && dets[i].score <= dets[order[0]].score {
      assert i in order && order[0] in order;
      var j :| 0 <= j < |order| && order[j] == i;
      if j > 0 { assert dets[order[0]].score >= dets[order[j]].score; }
    }
  }
}
