// Stable, collision-free note paths: items whose names fold to the same text
// form a group; the smallest key of the group gets the plain name, the others
// get a suffix made of the first eight characters of their key.

module PathAssignment {
  import opened Common

  datatype Item = Item(base: string, key: string)

  /** Case folding works character by character. */
  type Folding = char -> string

  function Fold(fc: Folding, s: string): string {
    if s == "" then "" else fc(s[0]) + Fold(fc, s[1..])
  }

  function InGroup(fc: Folding, folded: string): Item -> bool {
    (it: Item) => Fold(fc, it.base) == folded
  }

  function InsertItem(x: Item, s: seq<Item>): seq<Item> {
    if s == [] || Leq(x.key, s[0].key) then [x] + s else [s[0]] + InsertItem(x, s[1..])
  }

  /** `group.sort(key=key_of)`. */
  function SortItems(s: seq<Item>): seq<Item> {
    if s == [] then [] else InsertItem(s[0], SortItems(s[1..]))
  }

  function Group(fc: Folding, items: seq<Item>, base: string): seq<Item> {
    SortItems(Filter(items, InGroup(fc, Fold(fc, base))))
  }

  function Prefix8(key: string): string {
    if |key| <= 8 then key else key[..8]
  }

  function Suffixed(it: Item): string {
    it.base + " (" + Prefix8(it.key) + ")"
  }

  function Name(it: Item, first: bool): string {
    if first then it.base else Suffixed(it)
  }

  function NotePath(folder: string, name: string): string {
    folder + "/" + name + ".md"
  }

  /** The item comes first in its group. */
  predicate Owns(fc: Folding, items: seq<Item>, it: Item) {
    var g := Group(fc, items, it.base);
    g != [] && g[0] == it
  }

  function NameIn(fc: Folding, items: seq<Item>, it: Item): string {
    Name(it, Owns(fc, items, it))
  }

  ghost predicate UniqueKeys(items: seq<Item>) {
    forall i, j :: 0 <= i < j < |items| ==> items[i].key != items[j].key
  }

  // ------------------------------------------------------------ who owns the plain name

  lemma {:induction false} InsertItemMember(x: Item, s: seq<Item>, it: Item)
    ensures it in InsertItem(x, s) <==> it == x || it in s
  {
    if s != [] && !Leq(x.key, s[0].key) {
      InsertItemMember(x, s[1..], it);
      assert s == [s[0]] + s[1..];
    }
  }

  /** Sorting keeps the items and puts a least key first. */
  lemma {:induction false} SortItemsFirst(s: seq<Item>, it: Item)
    ensures it in SortItems(s) <==> it in s
    ensures it in s ==> Leq(SortItems(s)[0].key, it.key)
    ensures s != [] ==> SortItems(s) != [] && SortItems(s)[0] in s
  {
    if s != [] {
      var t := SortItems(s[1..]);
      SortItemsFirst(s[1..], it);
      InsertItemMember(s[0], t, it);
      assert s == [s[0]] + s[1..];
      LeqReflexive(s[0].key);
      if t != [] {
        LeqTotal(s[0].key, t[0].key);
        if it in s[1..] && Leq(s[0].key, t[0].key) { LeqTransitive(s[0].key, t[0].key, it.key); }
      }
    }
  }

  /** The plain name goes to the item whose key is least among those whose names fold alike. */
  lemma OwnsIffLeast(fc: Folding, items: seq<Item>, it: Item)
    requires UniqueKeys(items) && it in items
    ensures Owns(fc, items, it) <==>
            forall x :: x in items && Fold(fc, x.base) == Fold(fc, it.base) ==> Leq(it.key, x.key)
  {
    var p := InGroup(fc, Fold(fc, it.base));
    var members := Filter(items, p);
    FilterMember(items, p, it);
    SortItemsFirst(members, it);
    var first := SortItems(members)[0];
    FilterMember(items, p, first);
    forall x | x in items && p(x) ensures Leq(first.key, x.key) {
      FilterMember(items, p, x);
      SortItemsFirst(members, x);
    }
    if Leq(it.key, first.key) {
      LeqAntisymmetric(it.key, first.key);
      var i :| 0 <= i < |items| && items[i] == it;
      var j :| 0 <= j < |items| && items[j] == first;
      assert i == j;
    }
  }

  // ------------------------------------------------------------ the loops

  function GroupOf(byBase: map<string, seq<Item>>, g: string): seq<Item> {
    if g in byBase then byBase[g] else []
  }

  /** The groups of a list, and their folded names in order of first appearance. */
  ghost predicate Groups(fc: Folding, items: seq<Item>, order: seq<string>, byBase: map<string, seq<Item>>) {
    && (forall it :: it in items ==> Fold(fc, it.base) in byBase)
    && (forall g :: g in order <==> g in byBase)
    && (forall g :: GroupOf(byBase, g) == Filter(items, InGroup(fc, g)))
  }

  method GroupLoop(fc: Folding, items: seq<Item>) returns (order: seq<string>, byBase: map<string, seq<Item>>)
    ensures Groups(fc, items, order, byBase)
  {
    order, byBase := [], map[];
    for i := 0 to |items|
      invariant Groups(fc, items[..i], order, byBase)
    {
      var folded := Fold(fc, items[i].base);
      GroupsGrow(fc, items, i, order, byBase);
      if folded !in byBase { order := order + [folded]; }
      byBase := byBase[folded := GroupOf(byBase, folded) + [items[i]]];
    }
    assert items[..|items|] == items;
  }

  lemma GroupsGrow(fc: Folding, items: seq<Item>, i: nat, order: seq<string>, byBase: map<string, seq<Item>>)
    requires i < |items| && Groups(fc, items[..i], order, byBase)
    ensures var g := Fold(fc, items[i].base);
            Groups(fc, items[..i + 1], if g in byBase then order else order + [g],
                   byBase[g := GroupOf(byBase, g) + [items[i]]])
  {
    var folded := Fold(fc, items[i].base);
    var more := byBase[folded := GroupOf(byBase, folded) + [items[i]]];
    assert items[..i + 1] == items[..i] + [items[i]];
    forall g ensures GroupOf(more, g) == Filter(items[..i + 1], InGroup(fc, g)) {
      FilterConcat(items[..i], [items[i]], InGroup(fc, g));
    }
  }

  predicate HasKey(group: seq<Item>, k: string) {
    exists i :: 0 <= i < |group| && group[i].key == k
  }

  /** The items of a group have their paths, the first one the plain name; other keys keep theirs. */
  ghost predicate Placed(group: seq<Item>, folder: string, before: map<string, string>, paths: map<string, string>) {
    && (forall i :: 0 <= i < |group| ==>
          group[i].key in paths && paths[group[i].key] == NotePath(folder, Name(group[i], i == 0)))
    && (forall k :: k in before && !HasKey(group, k) ==> k in paths && paths[k] == before[k])
    && (forall k :: k in paths ==> k in before || HasKey(group, k))
  }

  /** The inner loop: one sorted group. */
  method AssignGroup(group: seq<Item>, folder: string, before: map<string, string>) returns (paths: map<string, string>)
    requires UniqueKeys(group)
    ensures Placed(group, folder, before, paths)
  {
    paths := before;
    for i := 0 to |group|
      invariant forall j :: 0 <= j < i ==>
        group[j].key in paths && paths[group[j].key] == NotePath(folder, Name(group[j], j == 0))
      invariant forall k :: k in before && !HasKey(group, k) ==> k in paths && paths[k] == before[k]
      invariant forall k :: k in paths ==> k in before || HasKey(group, k)
    {
      paths := paths[group[i].key := NotePath(folder, Name(group[i], i == 0))];
    }
  }

  ghost predicate Assigned(fc: Folding, items: seq<Item>, folder: string, paths: map<string, string>, it: Item) {
    it.key in paths && paths[it.key] == NotePath(folder, NameIn(fc, items, it))
  }

  /** `assign_paths`: the path of every key. */
  method AssignPaths(fc: Folding, items: seq<Item>, folder: string) returns (paths: map<string, string>)
    requires UniqueKeys(items)
    ensures forall it :: it in items ==> Assigned(fc, items, folder, paths, it)
    ensures forall k :: k in paths ==> HasKey(items, k)
  {
    var order, byBase := GroupLoop(fc, items);
    paths := map[];
    for n := 0 to |order|
      invariant forall it :: it in items && Fold(fc, it.base) in order[..n] ==> Assigned(fc, items, folder, paths, it)
      invariant forall k :: k in paths ==> HasKey(items, k)
    {
      ghost var before := paths;
      var group := SortItems(byBase[order[n]]);
      GroupUnique(fc, items, order[n]);
      paths := AssignGroup(group, folder, paths);
      forall k | HasKey(group, k) ensures HasKey(items, k) { KeyOfMember(fc, items, order[n], k); }
      forall it | it in items && Fold(fc, it.base) in order[..n + 1] ensures Assigned(fc, items, folder, paths, it) {
        AssignedNow(fc, items, folder, order[n], before, paths, it);
      }
    }
    assert order[..|order|] == order;
  }

  lemma KeyOfMember(fc: Folding, items: seq<Item>, g: string, k: string)
    requires HasKey(SortItems(Filter(items, InGroup(fc, g))), k)
    ensures HasKey(items, k)
  {
    var members := Filter(items, InGroup(fc, g));
    var i :| 0 <= i < |SortItems(members)| && SortItems(members)[i].key == k;
    SortItemsFirst(members, SortItems(members)[i]);
    FilterMember(items, InGroup(fc, g), SortItems(members)[i]);
  }

  lemma AssignedNow(fc: Folding, items: seq<Item>, folder: string, g: string,
                    before: map<string, string>, paths: map<string, string>, it: Item)
    requires UniqueKeys(items) && it in items
    requires Placed(SortItems(Filter(items, InGroup(fc, g))), folder, before, paths)
    requires Fold(fc, it.base) == g || Assigned(fc, items, folder, before, it)
    ensures Assigned(fc, items, folder, paths, it)
  {
    InItsGroup(fc, items, g, it);
  }

  /** Items of another group share no key with this one; items of this one are found in it, the owner first. */
  lemma InItsGroup(fc: Folding, items: seq<Item>, g: string, it: Item)
    requires UniqueKeys(items) && it in items
    ensures var group := SortItems(Filter(items, InGroup(fc, g)));
            if Fold(fc, it.base) == g then
              exists i :: 0 <= i < |group| && group[i] == it && (i == 0 <==> Owns(fc, items, it))
            else !HasKey(group, it.key)
  {
    var members := Filter(items, InGroup(fc, g));
    var group := SortItems(members);
    GroupUnique(fc, items, g);
    FilterMember(items, InGroup(fc, g), it);
    SortItemsFirst(members, it);
    if Fold(fc, it.base) == g {
      var i :| 0 <= i < |group| && group[i] == it;
      assert i == 0 <==> Owns(fc, items, it);
    } else {
      forall i | 0 <= i < |group| ensures group[i].key != it.key {
        SortItemsFirst(members, group[i]);
        FilterMember(items, InGroup(fc, g), group[i]);
        KeyIdentifies(items, group[i], it);
      }
    }
  }

  lemma KeyIdentifies(items: seq<Item>, a: Item, b: Item)
    requires UniqueKeys(items) && a in items && b in items
    ensures a.key == b.key <==> a == b
  {
    var i :| 0 <= i < |items| && items[i] == a;
    var j :| 0 <= j < |items| && items[j] == b;
  }

  lemma {:induction false} InsertItemUnique(x: Item, s: seq<Item>)
    requires UniqueKeys(s) && forall i :: 0 <= i < |s| ==> s[i].key != x.key
    ensures UniqueKeys(InsertItem(x, s))
  {
    if s != [] && !Leq(x.key, s[0].key) {
      InsertItemUnique(x, s[1..]);
      var t := InsertItem(x, s[1..]);
      forall j | 0 <= j < |t| ensures t[j].key != s[0].key {
        InsertItemMember(x, s[1..], t[j]);
        if t[j] != x { var i :| 1 <= i < |s| && s[i] == t[j]; }
      }
    }
  }

  lemma {:induction false} SortItemsUnique(s: seq<Item>)
    requires UniqueKeys(s)
    ensures UniqueKeys(SortItems(s))
  {
    if s != [] {
      var t := SortItems(s[1..]);
      SortItemsUnique(s[1..]);
      forall j | 0 <= j < |t| ensures t[j].key != s[0].key {
        SortItemsFirst(s[1..], t[j]);
        var i :| 1 <= i < |s| && s[i] == t[j];
      }
      InsertItemUnique(s[0], t);
    }
  }

  lemma {:induction false} FilterUnique(s: seq<Item>, p: Item -> bool)
    requires UniqueKeys(s)
    ensures UniqueKeys(Filter(s, p))
  {
    if s != [] {
      var t := Filter(s[1..], p);
      FilterUnique(s[1..], p);
      forall j | 0 <= j < |t| ensures t[j].key != s[0].key {
        FilterMember(s[1..], p, t[j]);
        var i :| 1 <= i < |s| && s[i] == t[j];
      }
    }
  }

  lemma GroupUnique(fc: Folding, items: seq<Item>, g: string)
    requires UniqueKeys(items)
    ensures UniqueKeys(SortItems(Filter(items, InGroup(fc, g))))
  {
    FilterUnique(items, InGroup(fc, g));
    SortItemsUnique(Filter(items, InGroup(fc, g)));
  }

  // ------------------------------------------------------------ stability

  /** The two names an item can have differ. */
  lemma NamesDiffer(it: Item)
    ensures it.base != Suffixed(it)
  {
    assert |Suffixed(it)| > |it.base|;
  }

  /**
   * Adding an item renames an existing one exactly if that one owns the plain
   * name of the new item's group and has the larger key.
   */
  lemma AddingRenames(fc: Folding, items: seq<Item>, x: Item, it: Item)
    requires UniqueKeys(items + [x]) && it in items
    ensures NameIn(fc, items + [x], it) != NameIn(fc, items, it) <==>
            Owns(fc, items, it) && Fold(fc, x.base) == Fold(fc, it.base) && !Leq(it.key, x.key)
  {
    var more := items + [x];
    assert forall i :: 0 <= i < |items| ==> more[i] == items[i];
    assert forall y :: y in more <==> y in items || y == x;
    OwnsIffLeast(fc, items, it);
    OwnsIffLeast(fc, more, it);
    NamesDiffer(it);
  }

  /** In particular an item whose key sorts after its group's keys changes no existing path. */
  lemma LaterKeysAreStable(fc: Folding, items: seq<Item>, x: Item)
    requires UniqueKeys(items + [x])
    requires forall y :: y in items && Fold(fc, y.base) == Fold(fc, x.base) ==> Leq(y.key, x.key)
    ensures forall it :: it in items ==> NameIn(fc, items + [x], it) == NameIn(fc, items, it)
  {
    forall it | it in items ensures NameIn(fc, items + [x], it) == NameIn(fc, items, it) {
      AddingRenames(fc, items, x, it);
    }
  }

  // ------------------------------------------------------------ collisions

  lemma {:induction false} FoldConcat(fc: Folding, a: string, b: string)
    ensures Fold(fc, a + b) == Fold(fc, a) + Fold(fc, b)
  {
    if a == "" {
      assert a + b == b;
    } else {
      assert (a + b)[1..] == a[1..] + b;
      FoldConcat(fc, a[1..], b);
    }
  }

  /** Parentheses and blanks have no case. */
  predicate PlainPunctuation(fc: Folding) {
    fc(' ') == " " && fc('(') == "(" && fc(')') == ")"
  }

  lemma FoldSuffixed(fc: Folding, it: Item)
    requires PlainPunctuation(fc)
    ensures Fold(fc, Suffixed(it)) == Fold(fc, it.base) + " (" + Fold(fc, Prefix8(it.key)) + ")"
  {
    var k := Prefix8(it.key);
    assert Suffixed(it) == (it.base + " (") + (k + ")");
    FoldConcat(fc, it.base + " (", k + ")");
    FoldConcat(fc, it.base, " (");
    FoldConcat(fc, k, ")");
    assert Fold(fc, " (") == " (" by { assert " ("[1..] == "("; assert "("[1..] == ""; }
    assert Fold(fc, ")") == ")" by { assert ")"[1..] == ""; }
  }

  /** Two items of one group that both carry a suffix, with key prefixes that fold alike. */
  ghost predicate PrefixClash(fc: Folding, items: seq<Item>, a: Item, b: Item) {
    && Fold(fc, a.base) == Fold(fc, b.base)
    && !Owns(fc, items, a) && !Owns(fc, items, b)
    && Fold(fc, Prefix8(a.key)) == Fold(fc, Prefix8(b.key))
  }

  /** A plain name that folds like the suffixed name of an item of another group. */
  ghost predicate NameClash(fc: Folding, items: seq<Item>, a: Item, b: Item) {
    Owns(fc, items, a) && !Owns(fc, items, b) && Fold(fc, a.base) == Fold(fc, Suffixed(b))
  }

  /** The last '(' of a suffixed name is the one before the key prefix. */
  lemma LastParenthesis(b: string, k: string)
    requires '(' !in k
    ensures var s := b + " (" + k + ")";
            s[|b| + 1] == '(' && forall i :: |b| + 1 < i < |s| ==> s[i] != '('
  {
    var s := b + " (" + k + ")";
    forall i | |b| + 1 < i < |s| ensures s[i] != '(' {
      if i < |s| - 1 { assert s[i] == k[i - |b| - 2] && k[i - |b| - 2] in k; }
    }
  }

  /** So a suffixed name splits in only one way. */
  lemma SplitUnique(b: string, k: string, b': string, k': string)
    requires b + " (" + k + ")" == b' + " (" + k' + ")"
    requires '(' !in k && '(' !in k'
    ensures b == b' && k == k'
  {
    var s, t := b + " (" + k + ")", b' + " (" + k' + ")";
    LastParenthesis(b, k);
    LastParenthesis(b', k');
    assert |b| == |b'|;
    assert b == s[..|b|] && b' == t[..|b'|];
    assert k == s[|b| + 2..|s| - 1] && k' == t[|b'| + 2..|t| - 1];
  }

  /**
   * Two items get names that differ only in case exactly if their key prefixes
   * clash within a group, or one's plain name is the other's suffixed name.
   */
  lemma ClashIff(fc: Folding, items: seq<Item>, a: Item, b: Item)
    requires UniqueKeys(items) && a in items && b in items && a != b
    requires PlainPunctuation(fc)
    requires '(' !in Fold(fc, Prefix8(a.key)) && '(' !in Fold(fc, Prefix8(b.key))
    ensures Fold(fc, NameIn(fc, items, a)) == Fold(fc, NameIn(fc, items, b)) <==>
            PrefixClash(fc, items, a, b) || NameClash(fc, items, a, b) || NameClash(fc, items, b, a)
  {
    FoldSuffixed(fc, a);
    FoldSuffixed(fc, b);
    if Owns(fc, items, a) && Owns(fc, items, b) {
      if Fold(fc, a.base) == Fold(fc, b.base) { OneOwner(fc, items, a, b); }
    } else if !Owns(fc, items, a) && !Owns(fc, items, b) {
      if Fold(fc, Suffixed(a)) == Fold(fc, Suffixed(b)) {
        SplitUnique(Fold(fc, a.base), Fold(fc, Prefix8(a.key)), Fold(fc, b.base), Fold(fc, Prefix8(b.key)));
      }
    }
  }

  lemma OneOwner(fc: Folding, items: seq<Item>, a: Item, b: Item)
    requires Owns(fc, items, a) && Owns(fc, items, b) && Fold(fc, a.base) == Fold(fc, b.base)
    ensures a == b
  {
  }

  /** Case-insensitive injectivity of the whole assignment. */
  ghost predicate Distinguishes(fc: Folding, items: seq<Item>) {
    forall a, b :: a in items && b in items && a != b ==>
      Fold(fc, NameIn(fc, items, a)) != Fold(fc, NameIn(fc, items, b))
  }

  /** No two items clash, in a group or across groups. */
  ghost predicate NoClash(fc: Folding, items: seq<Item>) {
    forall a, b :: a in items && b in items && a != b ==>
      !PrefixClash(fc, items, a, b) && !NameClash(fc, items, a, b)
  }

  lemma InjectiveIff(fc: Folding, items: seq<Item>)
    requires UniqueKeys(items) && PlainPunctuation(fc)
    requires forall it :: it in items ==> '(' !in Fold(fc, Prefix8(it.key))
    ensures Distinguishes(fc, items) <==> NoClash(fc, items)
  {
    forall a, b | a in items && b in items && a != b
      ensures Fold(fc, NameIn(fc, items, a)) == Fold(fc, NameIn(fc, items, b)) <==>
              PrefixClash(fc, items, a, b) || NameClash(fc, items, a, b) || NameClash(fc, items, b, a)
    {
      ClashIff(fc, items, a, b);
    }
  }

  /** So different items get different paths. */
  lemma PathsDiffer(fc: Folding, items: seq<Item>, folder: string, paths: map<string, string>, a: Item, b: Item)
    requires UniqueKeys(items) && PlainPunctuation(fc) && NoClash(fc, items)
    requires forall it :: it in items ==> '(' !in Fold(fc, Prefix8(it.key)) && Assigned(fc, items, folder, paths, it)
    requires a in items && b in items && a != b
    ensures a.key in paths && b.key in paths && paths[a.key] != paths[b.key]
  {
    InjectiveIff(fc, items);
    var m, n := NameIn(fc, items, a), NameIn(fc, items, b);
    assert m != n;
    SamePath(folder, m, n);
  }

  lemma SamePath(folder: string, m: string, n: string)
    ensures NotePath(folder, m) == NotePath(folder, n) <==> m == n
  {
    var p, q := NotePath(folder, m), NotePath(folder, n);
    assert p[|folder| + 1..|p| - 3] == m && q[|folder| + 1..|q| - 3] == n;
  }

  // ------------------------------------------------------------ examples

  /** Different items with one name are not distinguished. */
  lemma SameName(fc: Folding, items: seq<Item>, a: Item, b: Item)
    requires a in items && b in items && a != b && NameIn(fc, items, a) == NameIn(fc, items, b)
    ensures !Distinguishes(fc, items)
  {
  }

  /** An item is not the owner if one with a smaller key has the same name. */
  lemma NotOwner(fc: Folding, items: seq<Item>, it: Item, other: Item)
    requires UniqueKeys(items) && it in items && other in items && it.base == other.base && !Leq(it.key, other.key)
    ensures !Owns(fc, items, it) && NameIn(fc, items, it) == Suffixed(it)
  {
    OwnsIffLeast(fc, items, it);
  }

  /** Two keys of a group that share their first eight characters: both items get the same path. */
  lemma SharedPrefix(fc: Folding, items: seq<Item>, folder: string)
    requires items == [Item("n", "0"), Item("n", "12345678a"), Item("n", "12345678b")]
    ensures UniqueKeys(items) && PrefixClash(fc, items, items[1], items[2]) && !Distinguishes(fc, items)
    ensures NotePath(folder, NameIn(fc, items, items[1])) == NotePath(folder, NameIn(fc, items, items[2]))
  {
    NotOwner(fc, items, items[1], items[0]);
    NotOwner(fc, items, items[2], items[0]);
    assert Prefix8(items[1].key) == "12345678" == Prefix8(items[2].key);
    SameName(fc, items, items[1], items[2]);
  }

  /** A plain name that is another item's suffixed name: both items get the same path. */
  lemma PlainIsSuffixed(fc: Folding, items: seq<Item>, folder: string)
    requires items == [Item("n", "0"), Item("n", "1"), Item("n (1)", "2")] && PlainPunctuation(fc)
    ensures UniqueKeys(items) && NameClash(fc, items, items[2], items[1]) && !Distinguishes(fc, items)
    ensures NotePath(folder, NameIn(fc, items, items[1])) == NotePath(folder, NameIn(fc, items, items[2]))
  {
    NotOwner(fc, items, items[1], items[0]);
    assert Suffixed(items[1]) == "n (1)";
    LongerName(fc, items[1]);
    OwnsIffLeast(fc, items, items[2]);
    LeqReflexive(items[2].key);
    assert NameIn(fc, items, items[2]) == "n (1)";
    SameName(fc, items, items[1], items[2]);
  }

  /** A suffixed name does not fold like the plain one. */
  lemma LongerName(fc: Folding, it: Item)
    requires PlainPunctuation(fc)
    ensures Fold(fc, Suffixed(it)) != Fold(fc, it.base)
  {
    FoldSuffixed(fc, it);
    assert |Fold(fc, Suffixed(it))| > |Fold(fc, it.base)|;
  }
}
