// Cutting a note into episodes of bounded length: paragraphs are packed
// together, and a paragraph that is too long is cut, at a blank if possible.

module Chunks {
  import opened Common

  /** Python's idea of white space, both for `str.lstrip` and for `\s`. */
  predicate IsSpace(c: char) {
    var n := c as int;
    || 9 <= n <= 13 || 28 <= n <= 32 || n == 0x85 || n == 0xA0 || n == 0x1680
    || 0x2000 <= n <= 0x200A || n == 0x2028 || n == 0x2029 || n == 0x202F || n == 0x205F || n == 0x3000
  }

  /** The characters that carry content, in order. */
  function Ink(s: string): string {
    if s == "" then ""
    else if IsSpace(s[0]) then Ink(s[1..])
    else [s[0]] + Ink(s[1..])
  }

  lemma {:induction false} InkConcat(a: string, b: string)
    ensures Ink(a + b) == Ink(a) + Ink(b)
  {
    if a == "" {
      assert a + b == b;
    } else {
      assert (a + b)[1..] == a[1..] + b;
      InkConcat(a[1..], b);
      if !IsSpace(a[0]) { assert [a[0]] + (Ink(a[1..]) + Ink(b)) == [a[0]] + Ink(a[1..]) + Ink(b); }
    }
  }

  lemma {:induction false} InkBlank(s: string)
    requires forall i :: 0 <= i < |s| ==> IsSpace(s[i])
    ensures Ink(s) == ""
  {
    if s != "" { InkBlank(s[1..]); }
  }

  // ------------------------------------------------------------ paragraphs

  /** The end of the run of white space from `i` on. */
  function RunEnd(s: string, i: nat): (e: nat)
    requires i <= |s|
    ensures i <= e <= |s|
    ensures forall j :: i <= j < e ==> IsSpace(s[j])
    ensures e < |s| ==> !IsSpace(s[e])
    decreases |s| - i
  {
    if i < |s| && IsSpace(s[i]) then RunEnd(s, i + 1) else i
  }

  /** The last newline in `s[i..j]`. */
  function LastNewline(s: string, i: nat, j: nat): (r: Option<nat>)
    requires i <= j <= |s|
    ensures r.Some? ==> i <= r.value < j && s[r.value] == '\n' && forall k :: r.value < k < j ==> s[k] != '\n'
    ensures r.None? ==> forall k :: i <= k < j ==> s[k] != '\n'
  {
    if i == j then None
    else if s[j - 1] == '\n' then Some(j - 1)
    else LastNewline(s, i, j - 1)
  }

  /** Where a match of `\n\s*\n` starting at `i` ends, longest match first. */
  function SeparatorEnd(s: string, i: nat): (r: Option<nat>)
    requires i < |s|
    ensures r.Some? ==> i + 1 < r.value <= |s| && forall j :: i <= j < r.value ==> IsSpace(s[j])
  {
    if s[i] != '\n' then None
    else match LastNewline(s, i + 1, RunEnd(s, i + 1))
      case None => None
      case Some(k) => Some(k + 1)
  }

  /** `re.split(r'\n\s*\n', text)` from `start` on, nothing matching before `i`. */
  function Paragraphs(s: string, start: nat, i: nat): seq<string>
    requires start <= i <= |s|
    decreases |s| - i
  {
    if i == |s| then [s[start..]]
    else match SeparatorEnd(s, i)
      case Some(e) => [s[start..i]] + Paragraphs(s, e, e)
      case None => Paragraphs(s, start, i + 1)
  }

  /** Splitting into paragraphs loses nothing but white space. */
  lemma {:induction false} ParagraphsInk(s: string, start: nat, i: nat)
    requires start <= i <= |s|
    ensures Ink(Flatten(Paragraphs(s, start, i))) == Ink(s[start..])
    decreases |s| - i
  {
    if i == |s| {
      assert Paragraphs(s, start, i)[1..] == [];
      assert s[start..] + "" == s[start..];
    } else {
      match SeparatorEnd(s, i) {
        case None => ParagraphsInk(s, start, i + 1);
        case Some(e) =>
          ParagraphsInk(s, e, e);
          var rest := Paragraphs(s, e, e);
          assert ([s[start..i]] + rest)[1..] == rest;
          assert s[start..] == s[start..i] + (s[i..e] + s[e..]);
          InkConcat(s[start..i], s[i..e] + s[e..]);
          InkConcat(s[i..e], s[e..]);
          InkBlank(s[i..e]);
          assert "" + Ink(s[e..]) == Ink(s[e..]);
          InkConcat(s[start..i], Flatten(rest));
      }
    }
  }

  // ------------------------------------------------------------ packing

  /** `para.rfind(' ', 0, limit)`. */
  function LastBlank(s: string, limit: nat): (r: Option<nat>)
    requires limit <= |s|
    ensures r.Some? ==> r.value < limit && s[r.value] == ' ' && forall k :: r.value < k < limit ==> s[k] != ' '
    ensures r.None? ==> forall k :: 0 <= k < limit ==> s[k] != ' '
  {
    if limit == 0 then None
    else if s[limit - 1] == ' ' then Some(limit - 1)
    else LastBlank(s, limit - 1)
  }

  /** Where a paragraph that is too long is cut: the last blank of the second half, or the limit. */
  function CutAt(para: string, limit: nat): (c: nat)
    requires 0 < limit < |para|
    ensures 0 < c <= limit
    ensures c == limit || (para[c] == ' ' && c > limit / 2)
    ensures forall k :: limit / 2 < k < limit && para[k] == ' ' ==> k <= c < limit
  {
    match LastBlank(para, limit)
    case None => limit
    case Some(b) => if b > limit / 2 then b else limit
  }

  function LStrip(s: string): (r: string)
    ensures |r| <= |s|
  {
    if s != "" && IsSpace(s[0]) then LStrip(s[1..]) else s
  }

  lemma {:induction false} LStripInk(s: string)
    ensures Ink(LStrip(s)) == Ink(s)
  {
    if s != "" && IsSpace(s[0]) { LStripInk(s[1..]); }
  }

  /** Finished chunks, and the one being filled. */
  datatype Packed = Packed(out: seq<string>, cur: string)

  function Flush(p: Packed): Packed {
    if p.cur != "" then Packed(p.out + [p.cur], "") else p
  }

  /** One more paragraph. */
  function AddParagraph(limit: nat, p: Packed, para: string): Packed
    requires limit > 0
    decreases |para|
  {
    if |para| > limit then
      var c := CutAt(para, limit);
      AddParagraph(limit, Packed(Flush(p).out + [para[..c]], ""), LStrip(para[c..]))
    else if p.cur != "" && |p.cur| + |para| + 2 > limit then Packed(p.out + [p.cur], para)
    else Packed(p.out, if p.cur != "" then p.cur + "\n\n" + para else para)
  }

  function AddAll(limit: nat, paras: seq<string>): Packed
    requires limit > 0
  {
    if paras == [] then Packed([], "")
    else AddParagraph(limit, AddAll(limit, paras[..|paras| - 1]), paras[|paras| - 1])
  }

  function Chunked(text: string, limit: nat): seq<string>
    requires limit > 0
  {
    if |text| <= limit then [text] else Flush(AddAll(limit, Paragraphs(text, 0, 0))).out
  }

  method ChunkLoop(text: string, limit: nat) returns (out: seq<string>)
    requires limit > 0
    ensures out == Chunked(text, limit)
    ensures |text| <= limit ==> out == [text]
  {
    if |text| <= limit { return [text]; }
    var paras := Paragraphs(text, 0, 0);
    var cur := "";
    out := [];
    for i := 0 to |paras|
      invariant Packed(out, cur) == AddAll(limit, paras[..i])
    {
      assert paras[..i + 1][..i] == paras[..i];
      var para := paras[i];
      while |para| > limit
        invariant AddParagraph(limit, Packed(out, cur), para) == AddAll(limit, paras[..i + 1])
        decreases |para|
      {
        var cut := CutAt(para, limit);
        if cur != "" {
          out := out + [cur];
          cur := "";
        }
        out := out + [para[..cut]];
        para := LStrip(para[cut..]);
      }
      if cur != "" && |cur| + |para| + 2 > limit {
        out := out + [cur];
        cur := para;
      } else {
        cur := if cur != "" then cur + "\n\n" + para else para;
      }
    }
    assert paras[..|paras|] == paras;
    if cur != "" { out := out + [cur]; }
  }

  // ------------------------------------------------------------ what the chunks are

  ghost predicate Sized(limit: nat, out: seq<string>) {
    forall i :: 0 <= i < |out| ==> 0 < |out[i]| <= limit
  }

  ghost function Content(p: Packed): string {
    Ink(Flatten(p.out)) + Ink(p.cur)
  }

  lemma ContentFlush(p: Packed)
    ensures Content(Flush(p)) == Content(p)
  {
    if p.cur != "" {
      FlattenSnoc(p.out, p.cur);
      InkConcat(Flatten(p.out), p.cur);
      assert Content(p) + "" == Content(p);
    }
  }

  lemma ContentPush(out: seq<string>, piece: string)
    ensures Content(Packed(out + [piece], "")) == Ink(Flatten(out)) + Ink(piece)
  {
    ContentFlush(Packed(out, piece));
    if piece == "" {
      FlattenSnoc(out, piece);
      assert Flatten(out) + "" == Flatten(out);
    }
  }

  /** A paragraph that fits: appended, or the start of a new chunk. */
  lemma AddShortFacts(limit: nat, p: Packed, para: string)
    requires |para| <= limit && limit > 0 && Sized(limit, p.out) && |p.cur| <= limit
    ensures var q := AddParagraph(limit, p, para);
            Sized(limit, q.out) && |q.cur| <= limit && Content(q) == Content(p) + Ink(para)
  {
    if p.cur != "" && |p.cur| + |para| + 2 > limit {
      ContentPush(p.out, p.cur);
      assert Ink(Flatten(p.out + [p.cur])) + "" == Ink(Flatten(p.out + [p.cur]));
    } else if p.cur != "" {
      InkConcat(p.cur + "\n\n", para);
      InkConcat(p.cur, "\n\n");
      InkBlank("\n\n");
      assert Ink(p.cur) + "" == Ink(p.cur);
      assert Ink(Flatten(p.out)) + (Ink(p.cur) + Ink(para)) == Content(p) + Ink(para);
    } else {
      assert Content(p) == Ink(Flatten(p.out)) + "" == Ink(Flatten(p.out));
    }
  }

  lemma Associative(a: string, b: string, c: string)
    ensures (a + b) + c == a + (b + c)
  {
  }

  lemma CutInk(para: string, c: nat)
    requires c <= |para|
    ensures Ink(para) == Ink(para[..c]) + Ink(LStrip(para[c..]))
  {
    assert para == para[..c] + para[c..];
    InkConcat(para[..c], para[c..]);
    LStripInk(para[c..]);
  }

  lemma ContentClosed(out: seq<string>)
    ensures Content(Packed(out, "")) == Ink(Flatten(out))
  {
    assert Ink(Flatten(out)) + "" == Ink(Flatten(out));
  }

  /** A piece cut off a paragraph that is too long. */
  lemma CutContent(p: Packed, para: string, c: nat)
    requires c <= |para|
    ensures Content(Packed(Flush(p).out + [para[..c]], "")) + Ink(LStrip(para[c..])) == Content(p) + Ink(para)
  {
    var out := Flush(p).out;
    ContentFlush(p);
    ContentClosed(out);
    assert Flush(p) == Packed(out, "");
    ContentPush(out, para[..c]);
    CutInk(para, c);
    Associative(Ink(Flatten(out)), Ink(para[..c]), Ink(LStrip(para[c..])));
  }

  lemma {:induction false} AddParagraphFacts(limit: nat, p: Packed, para: string)
    requires limit > 0 && Sized(limit, p.out) && |p.cur| <= limit
    ensures var q := AddParagraph(limit, p, para);
            Sized(limit, q.out) && |q.cur| <= limit && Content(q) == Content(p) + Ink(para)
    decreases |para|
  {
    if |para| > limit {
      var c := CutAt(para, limit);
      CutContent(p, para, c);
      AddParagraphFacts(limit, Packed(Flush(p).out + [para[..c]], ""), LStrip(para[c..]));
    } else {
      AddShortFacts(limit, p, para);
    }
  }

  lemma {:induction false} AddAllFacts(limit: nat, paras: seq<string>)
    requires limit > 0
    ensures var q := AddAll(limit, paras);
            Sized(limit, q.out) && |q.cur| <= limit && Content(q) == Ink(Flatten(paras))
  {
    if paras == [] {
    } else {
      var n := |paras| - 1;
      AddAllFacts(limit, paras[..n]);
      AddParagraphFacts(limit, AddAll(limit, paras[..n]), paras[n]);
      FlattenSnoc(paras[..n], paras[n]);
      assert paras[..n] + [paras[n]] == paras;
      InkConcat(Flatten(paras[..n]), paras[n]);
    }
  }

  /** Every chunk of a non-empty text is non-empty and within the limit; together they hold its content in order. */
  lemma ChunksFit(text: string, limit: nat)
    requires limit > 0 && text != ""
    ensures Sized(limit, Chunked(text, limit))
    ensures Ink(Flatten(Chunked(text, limit))) == Ink(text)
  {
    if |text| <= limit {
      assert [text][1..] == [];
      assert text + "" == text;
    } else {
      var paras := Paragraphs(text, 0, 0);
      AddAllFacts(limit, paras);
      ParagraphsInk(text, 0, 0);
      assert text[0..] == text;
      var q := AddAll(limit, paras);
      ContentFlush(q);
      assert Content(Flush(q)) == Ink(Flatten(Flush(q).out)) + "" == Ink(Flatten(Flush(q).out));
    }
  }
}
