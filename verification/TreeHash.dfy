// The content checksum of a vulnerability report (sha256-tree-v1): a JSON tree
// is written as a tagged byte stream and the stream is hashed. This module has
// the stream, a decoder for it, and the proof that the stream determines the
// report up to exactly the differences the protocol calls "not content".
//
// Bytes are characters with the byte's code; a text value is its UTF-8 bytes.

module TreeHash {
  import opened Common

  // ------------------------------------------------------------ JSON values

  /** The 64 bits of an IEEE 754 double. */
  type Bits = n: nat | n < 0x1_0000_0000_0000_0000

  /** A parsed JSON value. A dict keeps its insertion order. */
  datatype Value =
    | Null
    | Bool(b: bool)
    | Int(i: int)
    | Float(bits: Bits)
    | Str(s: string)
    | List(elems: seq<Value>)
    | Dict(items: Items)

  datatype Entry = Entry(key: string, value: Value)

  type Items = seq<Entry>

  /** Position of a key in a dict, or the dict's size. */
  function Find(items: Items, key: string): (i: nat)
    ensures i <= |items|
    ensures i < |items| ==> items[i].key == key
    ensures forall j :: 0 <= j < i ==> items[j].key != key
  {
    if items == [] || items[0].key == key then 0 else 1 + Find(items[1..], key)
  }

  predicate Has(items: Items, key: string) {
    Find(items, key) < |items|
  }

  function Get(items: Items, key: string): Value
    requires Has(items, key)
  {
    items[Find(items, key)].value
  }

  /** `dict(items, key=value)`: an existing key keeps its place. */
  function Put(items: Items, key: string, value: Value): Items {
    var i := Find(items, key);
    if i < |items| then items[i := Entry(key, value)] else items + [Entry(key, value)]
  }

  ghost predicate UniqueKeys(items: Items) {
    forall i, j :: 0 <= i < j < |items| ==> items[i].key != items[j].key
  }

  /** Every dict in the tree has unique keys, as every Python dict does. */
  ghost predicate WellFormed(v: Value) {
    match v
    case List(elems) => forall i :: 0 <= i < |elems| ==> WellFormed(elems[i])
    case Dict(items) => UniqueKeys(items) && forall i :: 0 <= i < |items| ==> WellFormed(items[i].value)
    case _ => true
  }

  // ------------------------------------------------------------ numbers

  function BitLength(n: nat): nat {
    if n == 0 then 0 else 1 + BitLength(n / 2)
  }

  function Pow2(k: nat): (p: nat)
    ensures p > 0
  {
    if k == 0 then 1 else 2 * Pow2(k - 1)
  }

  const MANTISSA := 0x10_0000_0000_0000 // 2^52

  /** `float(i)`: nearest double, ties to even; None where Python raises OverflowError. */
  function IntToDouble(i: int): Option<Bits> {
    if i == 0 then Some(0) else
    var m: nat := if i < 0 then -i else i;
    var bits := BitLength(m);
    var (mantissa, exponent) :=
      if bits <= 53 then (m * Pow2(53 - bits), bits - 1)
      else
        var unit := Pow2(bits - 53);
        var q, r := m / unit, m % unit;
        var rounded := if 2 * r > unit || (2 * r == unit && q % 2 == 1) then q + 1 else q;
        if rounded == 2 * MANTISSA then (MANTISSA, bits) else (rounded, bits - 1);
    if exponent > 1023 then None
    else
      var sign := if i < 0 then 0x8000_0000_0000_0000 else 0;
      Some(sign + (if exponent < 0 then 0 else exponent + 1023) * MANTISSA + mantissa % MANTISSA)
  }

  /** `struct.pack('>d', x)` on the double's bits: `count` bytes, most significant first. */
  function BigEndian(n: nat, count: nat): (r: string)
    ensures |r| == count
  {
    if count == 0 then "" else BigEndian(n / 256, count - 1) + [(n % 256) as char]
  }

  function FromBigEndian(s: string): nat {
    if s == "" then 0 else FromBigEndian(s[..|s| - 1]) * 256 + s[|s| - 1] as int
  }

  ghost predicate FitsBytes(n: nat, count: nat) {
    if count == 0 then n == 0 else FitsBytes(n / 256, count - 1)
  }

  lemma {:induction false} BigEndianRoundTrip(n: nat, count: nat)
    requires FitsBytes(n, count)
    ensures FromBigEndian(BigEndian(n, count)) == n
  {
    if count > 0 {
      BigEndianRoundTrip(n / 256, count - 1);
      var s := BigEndian(n, count);
      assert s[..|s| - 1] == BigEndian(n / 256, count - 1);
    }
  }

  lemma BitsFitEightBytes(n: Bits)
    ensures FitsBytes(n, 8)
  {
    var a := n / 256; var b := a / 256; var c := b / 256; var d := c / 256;
    var e := d / 256; var f := e / 256; var g := f / 256;
    assert g / 256 == 0;
    assert FitsBytes(g / 256, 0);
    assert FitsBytes(g, 1); assert FitsBytes(f, 2); assert FitsBytes(e, 3); assert FitsBytes(d, 4);
    assert FitsBytes(c, 5); assert FitsBytes(b, 6); assert FitsBytes(a, 7);
  }

  // ------------------------------------------------------------ the stream

  /** Every integer converts to a double, so hashing raises nothing. */
  predicate Encodable(v: Value) {
    match v
    case Int(i) => IntToDouble(i).Some?
    case List(elems) => forall i :: 0 <= i < |elems| ==> Encodable(elems[i])
    case Dict(items) => forall i :: 0 <= i < |items| ==> Encodable(items[i].value)
    case _ => true
  }

  function Text(s: string): string {
    "s" + Decimal(|s|) + ":" + s
  }

  function Number(bits: Bits): string {
    "d" + BigEndian(bits, 8)
  }

  /** The keys whose value is not null, in dict order. */
  function LiveKeys(items: Items): (ks: seq<string>)
    ensures forall k :: k in ks ==> Has(items, k)
  {
    if items == [] then []
    else
      var rest := LiveKeys(items[1..]);
      assert forall k :: k in rest ==> Find(items, k) <= 1 + Find(items[1..], k);
      if items[0].value.Null? then rest else [items[0].key] + rest
  }

  function SortedLive(items: Items): (ks: seq<string>)
    ensures forall k :: k in ks ==> Has(items, k)
  {
    var live := LiveKeys(items);
    assert forall k :: k in Sort(live) ==> k in multiset(live);
    Sort(live)
  }

  /** The bytes `report_hash` feeds to the hash for a value. */
  function Stream(v: Value): (r: string)
    requires Encodable(v)
    decreases v, 0
  {
    match v
    case Null => "n"
    case Bool(b) => if b then "t" else "f"
    case Int(i) => Number(IntToDouble(i).value)
    case Float(bits) => Number(bits)
    case Str(s) => Text(s)
    case List(elems) => "[" + StreamList(elems) + "]"
    case Dict(items) => "{" + StreamKeys(v, SortedLive(items)) + "}"
  }

  function StreamList(elems: seq<Value>): string
    requires forall i :: 0 <= i < |elems| ==> Encodable(elems[i])
    decreases elems, 0
  {
    if elems == [] then "" else Stream(elems[0]) + StreamList(elems[1..])
  }

  function StreamKeys(d: Value, keys: seq<string>): string
    requires d.Dict? && Encodable(d)
    requires forall k :: k in keys ==> Has(d.items, k)
    decreases d, 0, |keys|
  {
    if keys == [] then ""
    else Text(keys[0]) + Stream(Get(d.items, keys[0])) + StreamKeys(d, keys[1..])
  }

  // ------------------------------------------------------------ normal form

  /** What the checksum sees: numbers are doubles, a dict is a map without null values. */
  datatype Norm =
    | NNull
    | NBool(b: bool)
    | NNum(bits: nat)
    | NStr(s: string)
    | NList(elems: seq<Norm>)
    | NDict(m: map<string, Norm>)

  function Normal(v: Value): Norm
    requires Encodable(v)
    decreases v, 0
  {
    match v
    case Null => NNull
    case Bool(b) => NBool(b)
    case Int(i) => NNum(IntToDouble(i).value)
    case Float(bits) => NNum(bits)
    case Str(s) => NStr(s)
    case List(elems) => NList(NormalList(elems))
    case Dict(items) => NDict(NormalItems(items))
  }

  function NormalList(elems: seq<Value>): seq<Norm>
    requires forall i :: 0 <= i < |elems| ==> Encodable(elems[i])
    decreases elems, 0
  {
    if elems == [] then [] else [Normal(elems[0])] + NormalList(elems[1..])
  }

  function NormalItems(items: Items): map<string, Norm>
    requires forall i :: 0 <= i < |items| ==> Encodable(items[i].value)
    decreases items, 0
  {
    if items == [] then map[]
    else
      var rest := NormalItems(items[1..]);
      if items[0].value.Null? then rest else rest[items[0].key := Normal(items[0].value)]
  }

  // ------------------------------------------------------------ the decoder

  /** Reads one value off the front of a byte stream: its normal form and the bytes left. */
  function Decode(s: string): (r: Option<(Norm, string)>)
    ensures r.Some? ==> |r.value.1| < |s|
    decreases |s|, 0
  {
    if s == "" then None
    else match s[0]
      case 'n' => Some((NNull, s[1..]))
      case 't' => Some((NBool(true), s[1..]))
      case 'f' => Some((NBool(false), s[1..]))
      case 'd' => if |s| < 9 then None else Some((NNum(FromBigEndian(s[1..9])), s[9..]))
      case 's' =>
        (match DecodeText(s)
         case None => None
         case Some((t, rest)) => Some((NStr(t), rest)))
      case '[' =>
        (match DecodeList(s[1..])
         case None => None
         case Some((elems, rest)) => Some((NList(elems), rest)))
      case '{' =>
        (match DecodeDict(s[1..])
         case None => None
         case Some((m, rest)) => Some((NDict(m), rest)))
      case _ => None
  }

  function DecodeText(s: string): (r: Option<(string, string)>)
    ensures r.Some? ==> |r.value.1| < |s|
  {
    if s == "" || s[0] != 's' then None
    else match ReadLength(s[1..], 0)
      case None => None
      case Some((n, rest)) => if |rest| < n then None else Some((rest[..n], rest[n..]))
  }

  function DecodeList(s: string): (r: Option<(seq<Norm>, string)>)
    ensures r.Some? ==> |r.value.1| < |s|
    decreases |s|, 1
  {
    if s == "" then None
    else if s[0] == ']' then Some(([], s[1..]))
    else match Decode(s)
      case None => None
      case Some((x, rest)) =>
        match DecodeList(rest)
        case None => None
        case Some((xs, rest')) => Some(([x] + xs, rest'))
  }

  function DecodeDict(s: string): (r: Option<(map<string, Norm>, string)>)
    ensures r.Some? ==> |r.value.1| < |s|
    decreases |s|, 1
  {
    if s == "" then None
    else if s[0] == '}' then Some((map[], s[1..]))
    else match DecodeText(s)
      case None => None
      case Some((k, rest)) =>
        match Decode(rest)
        case None => None
        case Some((x, rest')) =>
          match DecodeDict(rest')
          case None => None
          case Some((m, rest'')) => Some((m[k := x], rest''))
  }

  // ------------------------------------------------------------ round trip

  lemma TextRoundTrip(s: string, rest: string)
    ensures DecodeText(Text(s) + rest) == Some((s, rest))
  {
    var t := Text(s) + rest;
    var tail := ":" + s + rest;
    assert t[1..] == Decimal(|s|) + tail;
    ReadDecimal(|s|, tail);
    assert tail[1..] == s + rest;
    assert (s + rest)[..|s|] == s && (s + rest)[|s|..] == rest;
  }

  lemma NumberRoundTrip(bits: Bits, rest: string)
    ensures Decode(Number(bits) + rest) == Some((NNum(bits), rest))
  {
    var t := Number(bits) + rest;
    assert t[0] == 'd' && t[1..9] == BigEndian(bits, 8) && t[9..] == rest;
    BitsFitEightBytes(bits);
    BigEndianRoundTrip(bits, 8);
  }

  lemma Bracketed(open: string, body: string, close: string, rest: string)
    requires |open| == 1
    ensures (open + body + close + rest)[0] == open[0]
    ensures (open + body + close + rest)[1..] == body + (close + rest)
  {
  }

  lemma Reassociate(a: string, b: string, c: string, rest: string)
    ensures a + b + c + rest == a + (b + (c + rest))
  {
  }

  /** No value's stream starts with a closing bracket. */
  lemma StreamOpens(v: Value)
    requires Encodable(v)
    ensures Stream(v) != "" && Stream(v)[0] in "ntfds[{"
  {
  }

  /** The stream is prefix-free and decodable: decoding gives back the normal form and the rest. */
  lemma {:induction false} RoundTrip(v: Value, rest: string)
    requires Encodable(v) && WellFormed(v)
    ensures Decode(Stream(v) + rest) == Some((Normal(v), rest))
    decreases v, 1
  {
    match v {
      case Null => assert ("n" + rest)[1..] == rest;
      case Bool(b) => assert ((if b then "t" else "f") + rest)[1..] == rest;
      case Int(i) => NumberRoundTrip(IntToDouble(i).value, rest);
      case Float(bits) => NumberRoundTrip(bits, rest);
      case Str(s) => TextRoundTrip(s, rest);
      case List(elems) =>
        RoundTripList(elems, rest);
        ListDecodes(elems, rest);
      case Dict(items) =>
        RoundTripKeys(v, SortedLive(items), rest);
        DictDecodes(v, rest);
        KeysAreItems(v);
    }
  }

  lemma ListDecodes(elems: seq<Value>, rest: string)
    requires forall i :: 0 <= i < |elems| ==> Encodable(elems[i])
    requires DecodeList(StreamList(elems) + ("]" + rest)) == Some((NormalList(elems), rest))
    ensures Decode("[" + StreamList(elems) + "]" + rest) == Some((NList(NormalList(elems)), rest))
  {
    Bracketed("[", StreamList(elems), "]", rest);
  }

  lemma DictDecodes(d: Value, rest: string)
    requires d.Dict? && Encodable(d)
    requires DecodeDict(StreamKeys(d, SortedLive(d.items)) + ("}" + rest)) == Some((NormalKeys(d, SortedLive(d.items)), rest))
    ensures Decode("{" + StreamKeys(d, SortedLive(d.items)) + "}" + rest) == Some((NDict(NormalKeys(d, SortedLive(d.items))), rest))
  {
    Bracketed("{", StreamKeys(d, SortedLive(d.items)), "}", rest);
  }

  lemma {:induction false} RoundTripList(elems: seq<Value>, rest: string)
    requires forall i :: 0 <= i < |elems| ==> Encodable(elems[i]) && WellFormed(elems[i])
    ensures DecodeList(StreamList(elems) + ("]" + rest)) == Some((NormalList(elems), rest))
    decreases elems, 0
  {
    var t := StreamList(elems) + ("]" + rest);
    if elems == [] {
      assert t == "]" + rest && t[1..] == rest;
    } else {
      var tail := StreamList(elems[1..]) + ("]" + rest);
      Reassociate("", Stream(elems[0]), StreamList(elems[1..]), "]" + rest);
      assert t == Stream(elems[0]) + tail;
      StreamOpens(elems[0]);
      assert t[0] == Stream(elems[0])[0];
      RoundTrip(elems[0], tail);
      RoundTripList(elems[1..], rest);
    }
  }

  /** The normal form of a dict restricted to a list of its keys. */
  ghost function NormalKeys(d: Value, keys: seq<string>): map<string, Norm>
    requires d.Dict? && Encodable(d)
    requires forall k :: k in keys ==> Has(d.items, k)
  {
    if keys == [] then map[]
    else NormalKeys(d, keys[1..])[keys[0] := Normal(Get(d.items, keys[0]))]
  }

  lemma {:induction false} RoundTripKeys(d: Value, keys: seq<string>, rest: string)
    requires d.Dict? && Encodable(d) && WellFormed(d)
    requires forall k :: k in keys ==> Has(d.items, k)
    ensures DecodeDict(StreamKeys(d, keys) + ("}" + rest)) == Some((NormalKeys(d, keys), rest))
    decreases d, 0, |keys|
  {
    var t := StreamKeys(d, keys) + ("}" + rest);
    if keys == [] {
      assert t == "}" + rest && t[1..] == rest;
    } else {
      var x := Get(d.items, keys[0]);
      var tail := StreamKeys(d, keys[1..]) + ("}" + rest);
      Reassociate(Text(keys[0]), Stream(x), StreamKeys(d, keys[1..]), "}" + rest);
      assert t == Text(keys[0]) + (Stream(x) + tail);
      assert t[0] == 's';
      TextRoundTrip(keys[0], Stream(x) + tail);
      RoundTrip(x, tail);
      RoundTripKeys(d, keys[1..], rest);
    }
  }

  lemma {:induction false} NormalKeysLookup(d: Value, keys: seq<string>, k: string)
    requires d.Dict? && Encodable(d)
    requires forall k :: k in keys ==> Has(d.items, k)
    ensures k in NormalKeys(d, keys) <==> k in keys
    ensures k in keys ==> NormalKeys(d, keys)[k] == Normal(Get(d.items, k))
  {
    if keys != [] {
      NormalKeysLookup(d, keys[1..], k);
      assert k in keys <==> k == keys[0] || k in keys[1..];
    }
  }

  lemma FirstKeyOnce(items: Items)
    requires UniqueKeys(items) && items != []
    ensures !Has(items[1..], items[0].key)
  {
    var j := Find(items[1..], items[0].key);
  }

  lemma {:induction false} NormalItemsLookup(items: Items, k: string)
    requires UniqueKeys(items)
    requires forall i :: 0 <= i < |items| ==> Encodable(items[i].value)
    ensures k in NormalItems(items) <==> Has(items, k) && !Get(items, k).Null?
    ensures k in NormalItems(items) ==> NormalItems(items)[k] == Normal(Get(items, k))
  {
    if items != [] {
      NormalItemsLookup(items[1..], k);
      if items[0].key == k {
        FirstKeyOnce(items);
      }
    }
  }

  lemma {:induction false} LiveKeysMember(items: Items, k: string)
    requires UniqueKeys(items)
    ensures k in LiveKeys(items) <==> Has(items, k) && !Get(items, k).Null?
  {
    if items != [] {
      LiveKeysMember(items[1..], k);
      if items[0].key == k {
        FirstKeyOnce(items);
      }
    }
  }

  lemma SortedLiveMember(items: Items, k: string)
    requires UniqueKeys(items)
    ensures k in SortedLive(items) <==> Has(items, k) && !Get(items, k).Null?
  {
    LiveKeysMember(items, k);
    var live := LiveKeys(items);
    assert k in live <==> k in multiset(live);
    assert k in Sort(live) <==> k in multiset(Sort(live));
  }

  lemma KeysAreItems(d: Value)
    requires d.Dict? && Encodable(d) && WellFormed(d)
    ensures NormalKeys(d, SortedLive(d.items)) == NormalItems(d.items)
  {
    var a, b := NormalKeys(d, SortedLive(d.items)), NormalItems(d.items);
    forall k ensures k in a <==> k in b
             ensures k in a ==> a[k] == b[k] {
      SortedLiveMember(d.items, k);
      NormalKeysLookup(d, SortedLive(d.items), k);
      NormalItemsLookup(d.items, k);
    }
  }

  // ------------------------------------------------------------ same normal form, same stream

  lemma {:induction false} LiveKeysDistinct(items: Items)
    requires UniqueKeys(items)
    ensures Distinct(LiveKeys(items))
    ensures forall k :: multiset(LiveKeys(items))[k] <= 1
  {
    if items != [] {
      LiveKeysDistinct(items[1..]);
      var rest := LiveKeys(items[1..]);
      LiveKeysMember(items[1..], items[0].key);
      FirstKeyOnce(items);
    }
  }

  /** Two dicts with the same live keys list them in the same order. */
  lemma SameSortedLive(a: Items, b: Items)
    requires UniqueKeys(a) && UniqueKeys(b)
    requires forall k :: k in LiveKeys(a) <==> k in LiveKeys(b)
    ensures SortedLive(a) == SortedLive(b)
  {
    LiveKeysDistinct(a);
    LiveKeysDistinct(b);
    var la, lb := LiveKeys(a), LiveKeys(b);
    forall k ensures multiset(la)[k] == multiset(lb)[k] {
      assert k in la <==> k in multiset(la);
      assert k in lb <==> k in multiset(lb);
    }
    assert multiset(la) == multiset(lb);
    SortSorted(la);
    SortSorted(lb);
    SortedUnique(Sort(la), Sort(lb));
  }

  lemma {:induction false} SameStream(u: Value, v: Value)
    requires Encodable(u) && WellFormed(u) && Encodable(v) && WellFormed(v)
    requires Normal(u) == Normal(v)
    ensures Stream(u) == Stream(v)
    decreases u, 1
  {
    match u {
      case List(elems) => SameStreamList(elems, v.elems);
      case Dict(items) =>
        forall k ensures k in LiveKeys(items) <==> k in LiveKeys(v.items) {
          LiveKeysMember(items, k);
          LiveKeysMember(v.items, k);
          NormalItemsLookup(items, k);
          NormalItemsLookup(v.items, k);
        }
        SameSortedLive(items, v.items);
        forall k | k in SortedLive(items)
          ensures Has(v.items, k) && Normal(Get(items, k)) == Normal(Get(v.items, k))
        {
          SortedLiveMember(items, k);
          NormalItemsLookup(items, k);
          NormalItemsLookup(v.items, k);
        }
        SameStreamKeys(u, v, SortedLive(items));
      case _ =>
    }
  }

  lemma {:induction false} SameStreamList(a: seq<Value>, b: seq<Value>)
    requires forall i :: 0 <= i < |a| ==> Encodable(a[i]) && WellFormed(a[i])
    requires forall i :: 0 <= i < |b| ==> Encodable(b[i]) && WellFormed(b[i])
    requires NormalList(a) == NormalList(b)
    ensures StreamList(a) == StreamList(b)
    decreases a, 0
  {
    if a != [] && b != [] {
      var na, nb := NormalList(a), NormalList(b);
      assert na[0] == Normal(a[0]) && nb[0] == Normal(b[0]);
      assert na[1..] == NormalList(a[1..]) && nb[1..] == NormalList(b[1..]);
      SameStream(a[0], b[0]);
      SameStreamList(a[1..], b[1..]);
    }
  }

  lemma {:induction false} SameStreamKeys(u: Value, v: Value, keys: seq<string>)
    requires u.Dict? && v.Dict?
    requires Encodable(u) && WellFormed(u) && Encodable(v) && WellFormed(v)
    requires forall k :: k in keys ==> Has(u.items, k) && Has(v.items, k)
    requires forall k :: k in keys ==> Normal(Get(u.items, k)) == Normal(Get(v.items, k))
    ensures StreamKeys(u, keys) == StreamKeys(v, keys)
    decreases u, 0, |keys|
  {
    if keys != [] {
      SameStream(Get(u.items, keys[0]), Get(v.items, keys[0]));
      SameStreamKeys(u, v, keys[1..]);
    }
  }

  /** Two values have the same stream exactly when their normal forms are equal. */
  lemma StreamEqualIffNormalEqual(u: Value, v: Value)
    requires Encodable(u) && WellFormed(u) && Encodable(v) && WellFormed(v)
    ensures Stream(u) == Stream(v) <==> Normal(u) == Normal(v)
  {
    RoundTrip(u, "");
    RoundTrip(v, "");
    if Normal(u) == Normal(v) { SameStream(u, v); }
  }

  /** No value's stream is a proper prefix of another's. */
  lemma PrefixFree(u: Value, v: Value)
    requires Encodable(u) && WellFormed(u) && Encodable(v) && WellFormed(v)
    requires Stream(u) <= Stream(v)
    ensures Stream(u) == Stream(v)
  {
    var rest := Stream(v)[|Stream(u)|..];
    assert Stream(v) == Stream(u) + rest;
    assert Stream(v) == Stream(v) + "";
    RoundTrip(u, rest);
    RoundTrip(v, "");
  }

  // ------------------------------------------------------------ report_hash

  /** What is hashed for a report: its fields with the timestamp nulled out. */
  function ReportTree(data: Items): Value {
    Dict(Put(data, "updateTimestamp", Null))
  }

  /** The bytes hashed for a report; None where hashing raises OverflowError. */
  function ReportStream(data: Items): Option<string> {
    if Encodable(ReportTree(data)) then Some(Stream(ReportTree(data))) else None
  }

  predicate Live(data: Items, key: string) {
    Has(data, key) && !Get(data, key).Null?
  }

  /** What the checksum sees of one field of a report. */
  ghost function Field(data: Items, key: string): Option<Norm>
    requires Encodable(ReportTree(data)) && key != "updateTimestamp"
  {
    if Live(data, key) then PutOther(data, key); Some(Normal(Get(data, key))) else None
  }

  /** Same report but for the timestamp, null-valued fields and the order of fields. */
  ghost predicate SameContent(a: Items, b: Items)
    requires Encodable(ReportTree(a)) && Encodable(ReportTree(b))
  {
    forall k :: k != "updateTimestamp" ==> Field(a, k) == Field(b, k)
  }

  lemma PutOther(data: Items, k: string)
    requires Encodable(ReportTree(data)) && k != "updateTimestamp"
    ensures Has(data, k) ==> Encodable(Get(data, k))
  {
    if Has(data, k) { PutLookup(data, "updateTimestamp", Null, k); }
  }

  lemma PutLookup(data: Items, key: string, value: Value, k: string)
    ensures Has(Put(data, key, value), k) <==> k == key || Has(data, k)
    ensures k == key ==> Get(Put(data, key, value), k) == value
    ensures k != key && Has(data, k) ==> Get(Put(data, key, value), k) == Get(data, k)
  {
    var i, j, n := Find(data, key), Find(data, k), Find(Put(data, key, value), k);
    if k == key {
      FindIs(Put(data, key, value), k, i);
    } else if j < |data| {
      FindIs(Put(data, key, value), k, j);
    } else {
      assert forall m :: 0 <= m < |data| ==> data[m].key != k;
    }
  }

  lemma {:induction false} FindIs(items: Items, key: string, i: nat)
    requires i < |items| && items[i].key == key
    requires forall j :: 0 <= j < i ==> items[j].key != key
    ensures Find(items, key) == i
  {
  }

  lemma PutUnique(data: Items, key: string, value: Value)
    requires UniqueKeys(data)
    ensures UniqueKeys(Put(data, key, value))
  {
  }

  lemma ReportTreeWellFormed(data: Items)
    requires WellFormed(Dict(data))
    ensures WellFormed(ReportTree(data))
  {
    PutUnique(data, "updateTimestamp", Null);
  }

  /**
   * Two reports feed the hash the same bytes exactly when they have the same
   * content: only the timestamp, null fields, field order and the spelling of
   * numbers are ignored.
   */
  lemma ReportStreamEqualIffSameContent(a: Items, b: Items)
    requires WellFormed(Dict(a)) && WellFormed(Dict(b))
    requires Encodable(ReportTree(a)) && Encodable(ReportTree(b))
    ensures ReportStream(a) == ReportStream(b) <==> SameContent(a, b)
  {
    var ta, tb := ReportTree(a), ReportTree(b);
    ReportTreeWellFormed(a);
    ReportTreeWellFormed(b);
    StreamEqualIffNormalEqual(ta, tb);
    ReportReads(a);
    ReportReads(b);
    SameReadings(a, b, NormalItems(ta.items), NormalItems(tb.items));
  }

  /** The map holds the report's fields but for the timestamp. */
  ghost predicate Reads(data: Items, fields: map<string, Norm>)
    requires Encodable(ReportTree(data))
  {
    && (forall k :: k in fields <==> k != "updateTimestamp" && Live(data, k))
    && (forall k :: k in fields ==> Field(data, k) == Some(fields[k]))
  }

  lemma ReportReads(data: Items)
    requires WellFormed(Dict(data)) && Encodable(ReportTree(data))
    ensures Reads(data, NormalItems(ReportTree(data).items))
  {
    var fields := NormalItems(ReportTree(data).items);
    forall k ensures k in fields <==> k != "updateTimestamp" && Live(data, k)
             ensures k in fields ==> Field(data, k) == Some(fields[k])
    {
      ReportLookup(data, k);
    }
  }

  lemma SameReadings(a: Items, b: Items, na: map<string, Norm>, nb: map<string, Norm>)
    requires Encodable(ReportTree(a)) && Encodable(ReportTree(b)) && Reads(a, na) && Reads(b, nb)
    ensures na == nb <==> SameContent(a, b)
  {
    if SameContent(a, b) {
      forall k ensures k in na <==> k in nb
               ensures k in na ==> na[k] == nb[k] {
        if k != "updateTimestamp" { assert Field(a, k) == Field(b, k); }
      }
    }
    if na == nb {
      forall k | k != "updateTimestamp" ensures Field(a, k) == Field(b, k) { assert k in na <==> k in nb; }
    }
  }

  lemma ReportLookup(data: Items, k: string)
    requires WellFormed(Dict(data)) && Encodable(ReportTree(data))
    ensures var n := NormalItems(ReportTree(data).items);
            && (k in n <==> k != "updateTimestamp" && Live(data, k))
            && (k in n ==> Field(data, k) == Some(n[k]))
  {
    PutUnique(data, "updateTimestamp", Null);
    NormalItemsLookup(ReportTree(data).items, k);
    PutLookup(data, "updateTimestamp", Null, k);
  }

  /** The hash object: what has been fed to it so far. */
  class Sha256 {
    var fed: string

    constructor ()
      ensures fed == ""
    {
      fed := "";
    }

    method Update(data: string)
      modifies this
      ensures fed == old(fed) + data
    {
      fed := fed + data;
    }
  }

  lemma Wrapped(before: string, open: string, body: string, close: string)
    ensures before + open + body + close == before + (open + body + close)
  {
  }

  /** Feeds one value to the hash; `ok` is false where a number overflows. */
  method Visit(h: Sha256, v: Value) returns (ok: bool)
    requires WellFormed(v)
    modifies h
    ensures ok == Encodable(v)
    ensures ok ==> h.fed == old(h.fed) + Stream(v)
    decreases v
  {
    ok := true;
    match v {
      case Null => h.Update("n");
      case Bool(b) => h.Update(if b then "t" else "f");
      case Int(i) =>
        var double := IntToDouble(i);
        if double.None? { return false; }
        h.Update(Number(double.value));
      case Float(bits) => h.Update(Number(bits));
      case Str(s) => h.Update(Text(s));
      case List(elems) =>
        h.Update("[");
        ok := VisitElements(h, elems);
        if ok {
          h.Update("]");
          Wrapped(old(h.fed), "[", StreamList(elems), "]");
        }
      case Dict(items) =>
        h.Update("{");
        ok := VisitFields(h, v);
        if ok {
          h.Update("}");
          Wrapped(old(h.fed), "{", StreamKeys(v, SortedLive(items)), "}");
        }
    }
  }

  /** After `i` elements the hash has been fed their streams, if the whole list can be. */
  ghost predicate FedElements(start: string, fed: string, elems: seq<Value>, i: nat)
    requires i <= |elems|
  {
    && (forall j :: 0 <= j < i ==> Encodable(elems[j]))
    && ((forall j :: 0 <= j < |elems| ==> Encodable(elems[j])) ==>
          fed + StreamList(elems[i..]) == start + StreamList(elems))
  }

  method VisitElements(h: Sha256, elems: seq<Value>) returns (ok: bool)
    requires forall i :: 0 <= i < |elems| ==> WellFormed(elems[i])
    modifies h
    ensures ok == forall i :: 0 <= i < |elems| ==> Encodable(elems[i])
    ensures ok ==> h.fed == old(h.fed) + StreamList(elems)
    decreases elems
  {
    for i := 0 to |elems|
      invariant FedElements(old(h.fed), h.fed, elems, i)
    {
      ghost var before := h.fed;
      ok := Visit(h, elems[i]);
      if !ok { return; }
      NextElement(old(h.fed), before, elems, i);
    }
    AllElements(old(h.fed), h.fed, elems);
    ok := true;
  }

  lemma NextElement(start: string, before: string, elems: seq<Value>, i: nat)
    requires i < |elems| && FedElements(start, before, elems, i) && Encodable(elems[i])
    ensures FedElements(start, before + Stream(elems[i]), elems, i + 1)
  {
    if forall j :: 0 <= j < |elems| ==> Encodable(elems[j]) {
      assert elems[i..][0] == elems[i] && elems[i..][1..] == elems[i + 1..];
      Reassociate(before, Stream(elems[i]), StreamList(elems[i + 1..]), "");
    }
  }

  lemma AllElements(start: string, fed: string, elems: seq<Value>)
    requires FedElements(start, fed, elems, |elems|)
    ensures forall j :: 0 <= j < |elems| ==> Encodable(elems[j])
    ensures fed == start + StreamList(elems)
  {
    assert elems[|elems|..] == [];
  }

  /** After `i` keys the hash has been fed those fields, if the whole dict can be. */
  ghost predicate FedFields(start: string, fed: string, d: Value, keys: seq<string>, i: nat)
    requires d.Dict? && i <= |keys| && forall k :: k in keys ==> Has(d.items, k)
  {
    && (forall j :: 0 <= j < i ==> Encodable(Get(d.items, keys[j])))
    && (Encodable(d) ==> fed + StreamKeys(d, keys[i..]) == start + StreamKeys(d, keys))
  }

  method VisitFields(h: Sha256, d: Value) returns (ok: bool)
    requires d.Dict? && WellFormed(d)
    modifies h
    ensures ok == Encodable(d)
    ensures ok ==> h.fed == old(h.fed) + StreamKeys(d, SortedLive(d.items))
    decreases d, 0, 1
  {
    var keys := SortedLive(d.items);
    for i := 0 to |keys|
      invariant FedFields(old(h.fed), h.fed, d, keys, i)
    {
      ghost var before := h.fed;
      assert keys[i] in keys;
      ok := VisitField(h, d, keys[i]);
      if !ok { return; }
      NextKey(old(h.fed), before, d, keys, i);
    }
    AllFields(old(h.fed), h.fed, d);
    ok := true;
  }

  lemma NextKey(start: string, before: string, d: Value, keys: seq<string>, i: nat)
    requires d.Dict? && i < |keys| && forall k :: k in keys ==> Has(d.items, k)
    requires FedFields(start, before, d, keys, i) && Encodable(Get(d.items, keys[i]))
    ensures FedFields(start, before + StreamField(d, keys[i]), d, keys, i + 1)
  {
    if Encodable(d) {
      assert keys[i..][0] == keys[i] && keys[i..][1..] == keys[i + 1..];
      Reassociate(before, StreamField(d, keys[i]), StreamKeys(d, keys[i + 1..]), "");
    }
  }

  lemma AllFields(start: string, fed: string, d: Value)
    requires d.Dict? && WellFormed(d)
    requires FedFields(start, fed, d, SortedLive(d.items), |SortedLive(d.items)|)
    ensures Encodable(d) && fed == start + StreamKeys(d, SortedLive(d.items))
  {
    var keys := SortedLive(d.items);
    assert keys[|keys|..] == [];
    LiveFieldsSuffice(d);
  }

  ghost function StreamField(d: Value, key: string): string
    requires d.Dict? && Has(d.items, key) && Encodable(Get(d.items, key))
  {
    Text(key) + Stream(Get(d.items, key))
  }

  method VisitField(h: Sha256, d: Value, key: string) returns (ok: bool)
    requires d.Dict? && WellFormed(d) && Has(d.items, key)
    modifies h
    ensures ok == Encodable(Get(d.items, key))
    ensures ok ==> h.fed == old(h.fed) + StreamField(d, key)
    decreases d, 0, 0
  {
    var field := Get(d.items, key);
    h.Update(Text(key));
    ok := Visit(h, field);
    if ok { Reassociate(old(h.fed), Text(key), Stream(field), ""); }
  }

  /** A dict is encodable when the values of its live keys are. */
  lemma LiveFieldsSuffice(d: Value)
    requires d.Dict? && WellFormed(d)
    requires forall k :: k in SortedLive(d.items) ==> Encodable(Get(d.items, k))
    ensures Encodable(d)
  {
    forall j | 0 <= j < |d.items| ensures Encodable(d.items[j].value) {
      FindIs(d.items, d.items[j].key, j);
      SortedLiveMember(d.items, d.items[j].key);
    }
  }

  /** The digest of a report under a hash function; None where hashing raises OverflowError. */
  function Digest(sha: string -> string, data: Items): Option<string> {
    match ReportStream(data)
    case None => None
    case Some(stream) => Some(sha(stream))
  }

  method ReportHash(sha: string -> string, data: Items) returns (r: Option<string>)
    requires WellFormed(Dict(data))
    ensures r == Digest(sha, data)
  {
    var h := new Sha256();
    ReportTreeWellFormed(data);
    var ok := Visit(h, ReportTree(data));
    if !ok { return None; }
    assert h.fed == Stream(ReportTree(data));
    return Some(sha(h.fed));
  }

  /** Equal digests mean equal content, unless two different streams collide under the hash. */
  lemma EqualDigests(sha: string -> string, a: Items, b: Items)
    requires WellFormed(Dict(a)) && WellFormed(Dict(b))
    requires Digest(sha, a).Some? && Digest(sha, a) == Digest(sha, b)
    ensures SameContent(a, b) || Collision(sha, ReportStream(a).value, ReportStream(b).value)
  {
    ReportStreamEqualIffSameContent(a, b);
  }

  ghost predicate Collision(sha: string -> string, s: string, t: string) {
    s != t && sha(s) == sha(t)
  }
}
