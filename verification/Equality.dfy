// Python's `==` on JSON values, as reassembly uses it, against canonical forms: a
// number is its exact value, a dict the map from its keys. `1`, `1.0` and `True`
// are one number; an integer that no double holds equals no double.

module Equality {
  import opened Common
  import opened TreeHash
  import opened Partition
  import opened Doubles
  import opened Arithmetic

  // ------------------------------------------------------------ numbers

  /** The double has this integer as its value. */
  predicate HasValue(w: Bits, i: int) {
    Integral(w) && Scaled(w) == Abs(i) * MANTISSA && (i != 0 ==> (Negative(w) <==> i < 0))
  }

  /** The fields of a double put together again. */
  lemma Recompose(w: Bits)
    ensures w == (if Negative(w) then SIGN else 0) + Exponent(w) * MANTISSA + w % MANTISSA
    ensures Significand(w) % MANTISSA == w % MANTISSA && MANTISSA <= Significand(w) < 2 * MANTISSA
  {
  }

  lemma {:induction false} BitLengthIs(m: nat, e: nat)
    requires Pow2(e) <= m < Pow2(e + 1)
    ensures BitLength(m) == e + 1
  {
    if e > 0 {
      BitLengthIs(m / 2, e - 1);
    } else {
      assert m == 1 && BitLength(0) == 0;
    }
  }

  /** A nonzero integer value fixes exponent and significand of the double. */
  lemma ValueFixes(w: Bits, m: nat)
    requires w % SIGN != 0 && Integral(w) && Scaled(w) == m * MANTISSA
    ensures var e := Exponent(w) - 1023;
      && m > 0 && BitLength(m) == e + 1
      && (e <= 52 ==> Significand(w) == m * Pow2(52 - e))
      && (e > 52 ==> m == Significand(w) * Pow2(e - 52))
  {
    var e, s := Exponent(w) - 1023, Significand(w);
    Recompose(w);
    Pow2Of52();
    assert s * Pow2(e) == m * MANTISSA;
    SizeOf(s, e, m);
    BitLengthIs(m, e);
    if e <= 52 {
      Pow2Adds(52 - e, e);
      ScaledDown(s, Pow2(52 - e), Pow2(e), m, MANTISSA);
    } else {
      Pow2Adds(e - 52, 52);
      ScaledUp(s, Pow2(e - 52), Pow2(e), m, MANTISSA);
    }
  }

  lemma ScaledDown(s: nat, p: nat, q: nat, m: nat, unit: nat)
    requires s * q == m * unit && p * q == unit && q > 0
    ensures s == m * p
  {
    Group(m, p, q);
    CancelRight(s, m * p, q);
  }

  lemma ScaledUp(s: nat, p: nat, q: nat, m: nat, unit: nat)
    requires s * q == m * unit && q == p * unit && unit > 0
    ensures m == s * p
  {
    Group(s, p, unit);
    CancelRight(m, s * p, unit);
  }

  lemma SizeOf(s: nat, e: nat, m: nat)
    requires MANTISSA <= s < 2 * MANTISSA && s * Pow2(e) == m * MANTISSA
    ensures Pow2(e) <= m < Pow2(e + 1) && m > 0
  {
    if s > MANTISSA { SmallerTimes(MANTISSA, s, Pow2(e)); }
    SmallerTimes(s, 2 * MANTISSA, Pow2(e));
    assert MANTISSA * Pow2(e) == Pow2(e) * MANTISSA;
    assert 2 * MANTISSA * Pow2(e) == Pow2(e + 1) * MANTISSA;
    CancelRight(Pow2(e), m, MANTISSA);
    CancelRight(m, Pow2(e + 1), MANTISSA);
  }

  /** The double of a nonzero integer value is the one that the integer converts to, without rounding. */
  lemma ValueConverts(w: Bits, i: int)
    requires i != 0 && HasValue(w, i)
    ensures ExactDouble(i) && IntToDouble(i) == Some(w)
  {
    var m, e := Abs(i), Exponent(w) - 1023;
    assert w % SIGN != 0;
    ValueFixes(w, m);
    Recompose(w);
    if e <= 52 {
      SmallForm(i);
    } else {
      var unit := Pow2(e - 52);
      Multiple(Significand(w), unit);
      LargeForm(i, Significand(w), e);
    }
  }

  lemma Multiple(q: nat, unit: nat)
    requires unit > 0
    ensures (q * unit) / unit == q && (q * unit) % unit == 0 && Nearest(q * unit, unit) == q
  {
    var m := q * unit;
    assert m == (m / unit) * unit + m % unit;
    var d := m / unit;
    if d < q { NotBetween(d, q, unit, m % unit); }
    if d > q { SmallerTimes(q, d, unit); }
  }

  /** An integer that converts without rounding has its double's value. */
  lemma ExactHasValue(i: int)
    requires ExactDouble(i)
    ensures HasValue(IntToDouble(i).value, i)
  {
    var m, b := Abs(i), BitLength(Abs(i));
    if b <= 53 {
      SmallIntegerIsExact(i);
    } else {
      LargeIntegerIsRounded(i);
      Divides(m, Pow2(b - 53));
    }
  }

  lemma Divides(m: nat, unit: nat)
    requires unit > 0 && m % unit == 0
    ensures Nearest(m, unit) * unit == m
  {
    assert m == (m / unit) * unit;
    Multiple(m / unit, unit);
  }

  /** An integer equals a double exactly if it is the double's value. */
  lemma IntEqIff(i: int, w: Bits)
    ensures IntEq(i, Float(w)) <==> HasValue(w, i)
  {
    if i == 0 {
      if HasValue(w, 0) { ZeroValue(w); }
    } else {
      if HasValue(w, i) { ValueConverts(w, i); }
      if IntEq(i, Float(w)) { ExactHasValue(i); }
    }
  }

  lemma ZeroValue(w: Bits)
    requires HasValue(w, 0)
    ensures w == 0 || w == SIGN
  {
    if w % SIGN != 0 { ValueFixes(w, 0); }
  }
  /** The integer that is the double's value, if its value is one. */
  function ValueOf(w: Bits): Option<int> {
    if Integral(w) && Scaled(w) % MANTISSA == 0 then
      var m: int := Scaled(w) / MANTISSA;
      Some(if Negative(w) then -m else m)
    else None
  }

  lemma ValueOfIs(w: Bits, i: int)
    ensures ValueOf(w) == Some(i) <==> HasValue(w, i)
  {
    if Integral(w) { Multiple(Abs(i), MANTISSA); }
  }

  /** Not a number: the largest exponent, and a fraction that is not 0 (with 0 it is an infinity). */
  lemma NaNIff(w: Bits)
    ensures IsNaN(w) <==> Exponent(w) == 2047 && w % MANTISSA != 0
  {
  }

  // ------------------------------------------------------------ canonical forms

  /** What equality sees: a number is its value, a dict is a map. */
  datatype Canon =
    | CNull
    | CStr(s: string)
    | CInt(i: int)
    | CFloat(bits: nat)
    | CList(elems: seq<Canon>)
    | CDict(m: map<string, Canon>)

  function CanonOf(v: Value): Canon
    decreases v, 0
  {
    match v
    case Null => CNull
    case Bool(b) => CInt(if b then 1 else 0)
    case Int(i) => CInt(i)
    case Float(bits) => (match ValueOf(bits) case Some(i) => CInt(i) case None => CFloat(bits))
    case Str(s) => CStr(s)
    case List(elems) => CList(CanonList(elems))
    case Dict(items) => CDict(CanonItems(items))
  }

  function CanonList(elems: seq<Value>): (r: seq<Canon>)
    ensures |r| == |elems|
    decreases elems, 0
  {
    if elems == [] then [] else [CanonOf(elems[0])] + CanonList(elems[1..])
  }

  function CanonItems(items: Items): map<string, Canon>
    decreases items, 0
  {
    if items == [] then map[] else CanonItems(items[1..])[items[0].key := CanonOf(items[0].value)]
  }

  predicate IsNumber(v: Value) {
    v.Bool? || v.Int? || v.Float?
  }

  /** `==` on numbers is equality of their values. */
  lemma NumEqIff(a: Value, b: Value)
    requires IsNumber(a) && IsNumber(b) && NoNaN(a) && NoNaN(b)
    ensures NumEq(a, b) <==> CanonOf(a) == CanonOf(b)
  {
    if a.Float? && b.Float? {
      FloatEqIff(a.bits, b.bits);
    } else if a.Float? {
      MixedEq(Integer(b), a.bits);
    } else if b.Float? {
      MixedEq(Integer(a), b.bits);
    }
  }

  function Integer(v: Value): int
    requires v.Bool? || v.Int?
  {
    if v.Int? then v.i else if v.b then 1 else 0
  }

  lemma MixedEq(i: int, w: Bits)
    ensures IntEq(i, Float(w)) <==> CanonOf(Float(w)) == CInt(i)
  {
    IntEqIff(i, w);
    ValueOfIs(w, i);
  }

  lemma FloatEqIff(v: Bits, w: Bits)
    requires !IsNaN(v) && !IsNaN(w)
    ensures FloatEq(v, w) <==> CanonOf(Float(v)) == CanonOf(Float(w))
  {
    if v % SIGN == 0 { ValueOfIs(v, 0); }
    if w % SIGN == 0 { ValueOfIs(w, 0); }
    if i: int :| ValueOf(v) == Some(i) && ValueOf(w) == Some(i) {
      ValueOfIs(v, i);
      ValueOfIs(w, i);
      if i == 0 {
        ZeroValue(v);
        ZeroValue(w);
      } else {
        ValueConverts(v, i);
        ValueConverts(w, i);
      }
    }
  }

  lemma {:induction false} CanonListAt(elems: seq<Value>, i: nat)
    requires i < |elems|
    ensures CanonList(elems)[i] == CanonOf(elems[i])
  {
    if i > 0 { CanonListAt(elems[1..], i - 1); }
  }

  lemma {:induction false} CanonLookup(items: Items, k: string)
    ensures k in CanonItems(items) <==> Has(items, k)
    ensures Has(items, k) ==> CanonItems(items)[k] == CanonOf(Get(items, k))
  {
    if items != [] { CanonLookup(items[1..], k); }
  }

  // ------------------------------------------------------------ dicts

  function KeySet(items: Items): set<string> {
    set i | 0 <= i < |items| :: items[i].key
  }

  lemma {:induction false} KeySetSize(items: Items)
    requires UniqueKeys(items)
    ensures |KeySet(items)| == |items|
  {
    if items != [] {
      var n := |items| - 1;
      KeySetSize(items[..n]);
      assert KeySet(items) == KeySet(items[..n]) + {items[n].key};
      assert items[n].key !in KeySet(items[..n]);
    }
  }

  /** Equal dicts have the same keys. */
  lemma SameKeys(a: Items, b: Items, k: string)
    requires UniqueKeys(a) && UniqueKeys(b) && |a| == |b|
    requires forall i :: 0 <= i < |a| ==> Has(b, a[i].key)
    ensures Has(a, k) <==> Has(b, k)
  {
    KeySetSize(a);
    KeySetSize(b);
    forall x | x in KeySet(a) ensures x in KeySet(b) {
      assert b[Find(b, x)].key == x;
    }
    SubsetOfSameSize(KeySet(a), KeySet(b));
    if Has(b, k) {
      assert b[Find(b, k)].key in KeySet(b);
      var i :| 0 <= i < |a| && a[i].key == k;
      FindAtMost(a, k, i);
    }
    if Has(a, k) { assert a[Find(a, k)].key == k; }
  }

  lemma FindAtMost(items: Items, k: string, i: nat)
    requires i < |items| && items[i].key == k
    ensures Has(items, k)
  {
  }

  lemma SameMapSize(a: Items, b: Items)
    requires UniqueKeys(a) && UniqueKeys(b) && forall k :: Has(a, k) <==> Has(b, k)
    ensures |a| == |b|
  {
    KeySetSize(a);
    KeySetSize(b);
    forall k ensures k in KeySet(a) <==> k in KeySet(b) {
      KeySetHas(a, k);
      KeySetHas(b, k);
    }
    assert KeySet(a) == KeySet(b);
  }

  lemma KeySetHas(items: Items, k: string)
    ensures k in KeySet(items) <==> Has(items, k)
  {
    if Has(items, k) { assert items[Find(items, k)].key == k; }
    if i: nat :| i < |items| && items[i].key == k { FindAtMost(items, k, i); }
  }

  /** Two dicts are equal exactly if they have the same keys, with equal values. */
  lemma DictEqIff(a: Items, b: Items)
    requires UniqueKeys(a) && UniqueKeys(b)
    ensures PyEq(Dict(a), Dict(b)) <==>
      forall k :: (Has(a, k) <==> Has(b, k)) && (Has(a, k) ==> PyEq(Get(a, k), Get(b, k)))
  {
    if PyEq(Dict(a), Dict(b)) {
      forall k ensures Has(a, k) <==> Has(b, k)
               ensures Has(a, k) ==> PyEq(Get(a, k), Get(b, k)) {
        SameKeys(a, b, k);
        if Has(a, k) { assert a[Find(a, k)].key == k; }
      }
    }
    if forall k :: (Has(a, k) <==> Has(b, k)) && (Has(a, k) ==> PyEq(Get(a, k), Get(b, k))) {
      SameMapSize(a, b);
      forall i | 0 <= i < |a| ensures Has(b, a[i].key) && PyEq(a[i].value, Get(b, a[i].key)) {
        FindIs(a, a[i].key, i);
      }
    }
  }

  // ------------------------------------------------------------ the theorem

  /** Python's `==` on JSON values without NaN is equality of their canonical forms. */
  lemma {:induction false} PyEqIff(a: Value, b: Value)
    requires WellFormed(a) && WellFormed(b) && NoNaN(a) && NoNaN(b)
    ensures PyEq(a, b) <==> CanonOf(a) == CanonOf(b)
    decreases a
  {
    match a {
      case Null =>
      case Str(_) =>
      case List(xs) => if b.List? { ListsIff(xs, b.elems, a); }
      case Dict(xs) => if b.Dict? { DictsIff(xs, b.items, a); }
      case _ => if IsNumber(b) { NumEqIff(a, b); }
    }
  }

  lemma {:induction false} ListsIff(xs: seq<Value>, ys: seq<Value>, a: Value)
    requires a == List(xs)
    requires WellFormed(List(xs)) && WellFormed(List(ys)) && NoNaN(List(xs)) && NoNaN(List(ys))
    ensures PyEq(List(xs), List(ys)) <==> CanonList(xs) == CanonList(ys)
    decreases a, 0
  {
    if |xs| == |ys| {
      forall i | 0 <= i < |xs|
        ensures PyEq(xs[i], ys[i]) <==> CanonList(xs)[i] == CanonList(ys)[i]
      {
        CanonListAt(xs, i);
        CanonListAt(ys, i);
        PyEqIff(xs[i], ys[i]);
      }
    }
  }

  lemma {:induction false} DictsIff(xs: Items, ys: Items, a: Value)
    requires a == Dict(xs)
    requires WellFormed(Dict(xs)) && WellFormed(Dict(ys)) && NoNaN(Dict(xs)) && NoNaN(Dict(ys))
    ensures PyEq(Dict(xs), Dict(ys)) <==> CanonItems(xs) == CanonItems(ys)
    decreases a, 0
  {
    DictEqIff(xs, ys);
    forall k
      ensures k in CanonItems(xs) <==> Has(xs, k)
      ensures k in CanonItems(ys) <==> Has(ys, k)
      ensures Has(xs, k) && Has(ys, k) ==> (PyEq(Get(xs, k), Get(ys, k)) <==> CanonItems(xs)[k] == CanonItems(ys)[k])
    {
      CanonLookup(xs, k);
      CanonLookup(ys, k);
      if Has(xs, k) && Has(ys, k) { PyEqIff(xs[Find(xs, k)].value, ys[Find(ys, k)].value); }
    }
  }

  // ------------------------------------------------------------ truth and headers

  /** `not v`: null, a zero, or empty. */
  lemma FalsyIff(v: Value)
    ensures !Truthy(v) <==> v.Null? || PyEq(v, Int(0)) || v == Str("") || v == List([]) || v == Dict([])
  {
  }

  /** Two bodies have equal headers exactly if they agree on every field but findings, summary and timestamp. */
  lemma SameHeaderIff(a: Items, b: Items)
    requires UniqueKeys(a) && UniqueKeys(b)
    ensures PyEq(Header(a), Header(b)) <==>
      forall k :: k != "vulnerabilities" && k != "summary" && k != "updateTimestamp" ==>
        (Has(a, k) <==> Has(b, k)) && (Has(a, k) ==> PyEq(Get(a, k), Get(b, k)))
  {
    HeaderUnique(a);
    HeaderUnique(b);
    DictEqIff(Header(a).items, Header(b).items);
    forall k
      ensures Has(Header(a).items, k) <==> Has(a, k) && IsHeader(k)
      ensures Has(Header(b).items, k) <==> Has(b, k) && IsHeader(k)
      ensures Has(a, k) && IsHeader(k) ==> Get(Header(a).items, k) == Get(a, k)
      ensures Has(b, k) && IsHeader(k) ==> Get(Header(b).items, k) == Get(b, k)
    {
      HeaderLookup(a, k);
      HeaderLookup(b, k);
    }
  }

  lemma {:induction false} FilterLookup(data: Items, p: Entry -> bool, k: string)
    requires forall e: Entry, f: Entry :: e.key == f.key ==> p(e) == p(f)
    ensures Has(Filter(data, p), k) <==> Has(data, k) && p(Entry(k, Null))
    ensures Has(Filter(data, p), k) ==> Get(Filter(data, p), k) == Get(data, k)
  {
    if data != [] {
      var head, rest := data[0], data[1..];
      FilterLookup(rest, p, k);
      assert data == [head] + rest;
      ConsLookup(head, rest, k);
      ConsLookup(head, Filter(rest, p), k);
      assert head.key == k ==> p(head) == p(Entry(k, Null));
    }
  }

  lemma ConsLookup(head: Entry, rest: Items, k: string)
    ensures Has([head] + rest, k) <==> head.key == k || Has(rest, k)
    ensures Has([head] + rest, k) ==> Get([head] + rest, k) == if head.key == k then head.value else Get(rest, k)
  {
    assert ([head] + rest)[1..] == rest;
  }

  lemma HeaderLookup(data: Items, k: string)
    ensures Has(Header(data).items, k) <==> Has(data, k) && IsHeader(k)
    ensures Has(data, k) && IsHeader(k) ==> Get(Header(data).items, k) == Get(data, k)
  {
    FilterLookup(data, (e: Entry) => IsHeader(e.key), k);
  }

  lemma {:induction false} FilterUnique(data: Items, p: Entry -> bool)
    requires UniqueKeys(data)
    ensures UniqueKeys(Filter(data, p))
  {
    if data != [] {
      var rest := Filter(data[1..], p);
      FilterUnique(data[1..], p);
      forall j | 0 <= j < |rest| ensures rest[j].key != data[0].key {
        FilterMember(data[1..], p, rest[j]);
        var m :| 1 <= m < |data| && data[m] == rest[j];
      }
    }
  }

  lemma HeaderUnique(data: Items)
    requires UniqueKeys(data)
    ensures UniqueKeys(Header(data).items)
  {
    FilterUnique(data, (e: Entry) => IsHeader(e.key));
  }
}
