// The byte stream of the checksum, byte by byte: the order of the keys, the bytes
// of a double, the tags.

module TreeBytes {
  import opened Common
  import opened TreeHash
  import opened Arithmetic

  /** Strictly earlier by code points: a proper prefix, or smaller where they first differ. */
  ghost predicate Before(a: string, b: string) {
    a != b && exists k: nat :: SmallerAt(a, b, k)
  }

  /** The keys written are those whose value is not null, each once, in code-point order. */
  lemma KeysInOrder(items: Items)
    requires UniqueKeys(items)
    ensures forall k :: k in SortedLive(items) <==> Live(items, k)
    ensures forall i, j :: 0 <= i < j < |SortedLive(items)| ==> Before(SortedLive(items)[i], SortedLive(items)[j])
  {
    var keys := SortedLive(items);
    forall k ensures k in keys <==> Live(items, k) { SortedLiveMember(items, k); }
    SortSorted(LiveKeys(items));
    LiveKeysDistinct(items);
    DistinctPermuted(LiveKeys(items), keys);
    forall i, j | 0 <= i < j < |keys| ensures Before(keys[i], keys[j]) { LeqIff(keys[i], keys[j]); }
  }

  /** 256 to the power of `k`. */
  function Bytes(k: nat): (p: nat)
    ensures p > 0
  {
    if k == 0 then 1 else 256 * Bytes(k - 1)
  }

  /** Byte `j` of `count` is the one with `count - 1 - j` bytes after it. */
  lemma {:induction false} ByteAt(n: nat, count: nat, j: nat)
    requires j < count
    ensures BigEndian(n, count)[j] as int == (n / Bytes(count - 1 - j)) % 256
  {
    if j < count - 1 {
      ByteAt(n / 256, count - 1, j);
      DivideTwice(n, 256, Bytes(count - 2 - j));
    }
  }

  /** The tags; `true` is not `false`, and 0 is not -0.0. */
  lemma Tags()
    ensures Stream(Null) == "n" && Stream(Bool(true)) == "t" && Stream(Bool(false)) == "f"
    ensures Stream(Str("ab")) == "s2:ab" && Stream(List([])) == "[]" && Stream(Dict([])) == "{}"
    ensures Stream(Int(0)) == "d\0\0\0\0\0\0\0\0" && Stream(Float(0)) == Stream(Int(0))
  {
    assert Decimal(2) == "2";
    assert Text("ab") == "s" + "2" + ":" + "ab" == "s2:ab";
    assert BigEndian(0, 8) == "\0\0\0\0\0\0\0\0";
  }
}
