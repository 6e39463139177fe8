// Which chunks: where the text is split into paragraphs, how a paragraph that is
// too long is cut, and how short paragraphs are packed together.

module ChunkFacts {
  import opened Common
  import opened Chunks

  // ------------------------------------------------------------ white space

  /** What Python's `\s` matches in a text. */
  const SPACES: set<char> := {
    '\t', '\n', '\U{b}', '\U{c}', '\r', '\U{1c}', '\U{1d}', '\U{1e}', '\U{1f}', ' ', '\U{85}', '\U{a0}', '\U{1680}',
    '\U{2000}', '\U{2001}', '\U{2002}', '\U{2003}', '\U{2004}', '\U{2005}', '\U{2006}', '\U{2007}', '\U{2008}',
    '\U{2009}', '\U{200a}', '\U{2028}', '\U{2029}', '\U{202f}', '\U{205f}', '\U{3000}'}

  lemma SpaceIff(c: char)
    ensures IsSpace(c) <==> c in SPACES
  {
  }

  /** The ink of a text is what is left of it without white space. */
  lemma {:induction false} InkIs(s: string)
    ensures Ink(s) == Filter(s, (c: char) => !IsSpace(c))
  {
    if s != "" {
      InkIs(s[1..]);
      FilterSame(s[1..], (c: char) => !IsSpace(c), (c: char) => !IsSpace(c));
    }
  }

  // ------------------------------------------------------------ paragraphs

  predicate AllSpace(s: string) {
    forall i :: 0 <= i < |s| ==> IsSpace(s[i])
  }

  /** A line break, white space, a line break. */
  predicate Separator(s: string) {
    |s| >= 2 && s[0] == '\n' && s[|s| - 1] == '\n' && AllSpace(s)
  }

  predicate HoldsSeparator(s: string) {
    exists i: nat, j: nat :: i < j <= |s| && Separator(s[i..j])
  }

  /** Begins with white space that ends in a line break, so that a separator before it was not taken whole. */
  predicate OpensWithBreak(s: string) {
    exists j: nat :: j < |s| && s[j] == '\n' && AllSpace(s[..j])
  }

  /** The paragraphs with the separators between them. */
  ghost function Weave(paras: seq<string>, seps: seq<string>): string
    requires |paras| == |seps| + 1
  {
    if seps == [] then paras[0] else paras[0] + (seps[0] + Weave(paras[1..], seps[1..]))
  }

  ghost predicate SplitInto(s: string, paras: seq<string>, seps: seq<string>) {
    && |paras| == |seps| + 1 && s == Weave(paras, seps)
    && (forall i :: 0 <= i < |seps| ==> Separator(seps[i]))
    && (forall i :: 0 <= i < |paras| ==> !HoldsSeparator(paras[i]))
    && (forall i :: 0 < i < |paras| ==> !OpensWithBreak(paras[i]))
  }

  /** No match starts at `i` exactly if no separator does. */
  lemma NoMatch(s: string, i: nat, j: nat)
    requires i < j <= |s| && Separator(s[i..j])
    ensures SeparatorEnd(s, i).Some? && j <= SeparatorEnd(s, i).value
  {
    var t := s[i..j];
    assert s[i] == t[0] && s[j - 1] == t[|t| - 1];
    forall k | i <= k < j ensures IsSpace(s[k]) { assert s[k] == t[k - i]; }
    assert RunEnd(s, i + 1) >= j;
  }

  lemma MatchIsSeparator(s: string, i: nat)
    requires i < |s| && SeparatorEnd(s, i).Some?
    ensures var e := SeparatorEnd(s, i).value; i + 1 < e <= |s| && Separator(s[i..e]) && !OpensWithBreak(s[e..])
  {
    var e, run := SeparatorEnd(s, i).value, RunEnd(s, i + 1);
    assert s[i..e][|s[i..e]| - 1] == s[e - 1];
    NoBreakAhead(s, e, run);
  }

  lemma NoBreakAhead(s: string, e: nat, run: nat)
    requires e <= run <= |s| && (run < |s| ==> !IsSpace(s[run])) && forall k :: e <= k < run ==> s[k] != '\n'
    ensures !OpensWithBreak(s[e..])
  {
    var t := s[e..];
    forall j: nat | j < |t| && t[j] == '\n' ensures !AllSpace(t[..j]) {
      assert t[j] == s[e + j] && IsSpace('\n');
      assert t[..j][run - e] == s[run];
    }
  }

  ghost predicate NoneBefore(s: string, start: nat, i: nat)
    requires start <= i <= |s|
  {
    forall k :: start <= k < i ==> SeparatorEnd(s, k).None?
  }

  lemma CleanParagraph(s: string, start: nat, i: nat)
    requires start <= i <= |s| && NoneBefore(s, start, i)
    ensures !HoldsSeparator(s[start..i])
  {
    var para := s[start..i];
    forall a: nat, b: nat | a < b <= |para| ensures !Separator(para[a..b]) {
      SliceOfSlice(s, start, i, a, b);
      if Separator(s[start + a..start + b]) { NoMatch(s, start + a, start + b); }
    }
  }

  lemma SliceOfSlice(s: string, start: nat, i: nat, a: nat, b: nat)
    requires start <= i <= |s| && a <= b <= i - start
    ensures s[start..i][a..b] == s[start + a..start + b]
  {
    assert forall k :: 0 <= k < b - a ==> s[start..i][a..b][k] == s[start..i][a + k] == s[start + a + k];
  }

  /** A start of a text opens with a break only if the text does. */
  lemma OpensPrefix(s: string, n: nat)
    requires n <= |s| && OpensWithBreak(s[..n])
    ensures OpensWithBreak(s)
  {
    var j: nat :| j < n && s[..n][j] == '\n' && AllSpace(s[..n][..j]);
    assert s[..n][..j] == s[..j];
  }

  lemma {:induction false} ParagraphsSplit(s: string, start: nat, i: nat) returns (seps: seq<string>)
    requires start <= i <= |s| && NoneBefore(s, start, i)
    ensures SplitInto(s[start..], Paragraphs(s, start, i), seps)
    ensures forall p :: p in Paragraphs(s, start, i)[..1] && OpensWithBreak(p) ==> OpensWithBreak(s[start..])
    decreases |s| - i
  {
    if i == |s| {
      seps := [];
      CleanParagraph(s, start, i);
      assert s[start..i] == s[start..];
    } else {
      match SeparatorEnd(s, i) {
        case None => seps := ParagraphsSplit(s, start, i + 1);
        case Some(e) =>
          MatchIsSeparator(s, i);
          CleanParagraph(s, start, i);
          var later := ParagraphsSplit(s, e, e);
          seps := [s[i..e]] + later;
          OneParagraphMore(s, start, i, e, Paragraphs(s, e, e), later);
      }
    }
  }

  lemma OneParagraphMore(s: string, start: nat, i: nat, e: nat, rest: seq<string>, later: seq<string>)
    requires start <= i < e <= |s| && SplitInto(s[e..], rest, later)
    requires !HoldsSeparator(s[start..i]) && Separator(s[i..e]) && !OpensWithBreak(s[e..])
    requires forall p :: p in rest[..1] && OpensWithBreak(p) ==> OpensWithBreak(s[e..])
    ensures SplitInto(s[start..], [s[start..i]] + rest, [s[i..e]] + later)
    ensures OpensWithBreak(s[start..i]) ==> OpensWithBreak(s[start..])
  {
    var paras, seps := [s[start..i]] + rest, [s[i..e]] + later;
    assert paras[1..] == rest && seps[1..] == later;
    assert s[start..] == s[start..i] + (s[i..e] + s[e..]);
    assert rest[0] in rest[..1];
    assert s[start..][..i - start] == s[start..i];
    if OpensWithBreak(s[start..i]) { OpensPrefix(s[start..], i - start); }
  }

  /** The text is its paragraphs with the separators taken out, each whole, and none left inside a paragraph. */
  lemma SplitIsWhole(text: string) returns (seps: seq<string>)
    ensures SplitInto(text, Paragraphs(text, 0, 0), seps)
  {
    seps := ParagraphsSplit(text, 0, 0);
    assert text[0..] == text;
  }

  // ------------------------------------------------------------ a paragraph that is too long

  /** The pieces of a paragraph: each cut at the last blank of its second half or at the limit, and white space dropped. */
  ghost predicate IsCut(limit: nat, para: string, pieces: seq<string>)
    decreases |pieces|
  {
    if |para| <= limit then pieces == [para]
    else |pieces| > 1 && exists d: nat :: CutFirst(limit, para, pieces[0], d) && IsCut(limit, para[d..], pieces[1..])
  }

  /** The first piece is cut right, and the next one starts at `d`. */
  ghost predicate CutFirst(limit: nat, para: string, piece: string, d: nat) {
    var c := |piece|;
    && limit / 2 < c <= limit < |para| && c <= d <= |para| && piece == para[..c]
    && (c < limit ==> para[c] == ' ') && (forall k :: limit / 2 < k < limit && para[k] == ' ' ==> k <= c < limit)
    && AllSpace(para[c..d]) && (d < |para| ==> !IsSpace(para[d]))
  }

  lemma {:induction false} StripAt(s: string) returns (d: nat)
    ensures d <= |s| && LStrip(s) == s[d..] && AllSpace(s[..d]) && (d < |s| ==> !IsSpace(s[d]))
  {
    if s != "" && IsSpace(s[0]) {
      var e := StripAt(s[1..]);
      d := e + 1;
      assert s[1..][e..] == s[d..];
      forall i | 0 <= i < d ensures IsSpace(s[..d][i]) { if i > 0 { assert s[..d][i] == s[1..][..e][i - 1]; } }
    } else {
      d := 0;
    }
  }

  /** The pieces, as the loop cuts them. */
  function PiecesOf(limit: nat, para: string): (r: seq<string>)
    requires limit > 0
    ensures r != []
    decreases |para|
  {
    if |para| <= limit then [para]
    else [para[..CutAt(para, limit)]] + PiecesOf(limit, LStrip(para[CutAt(para, limit)..]))
  }

  lemma {:induction false} PiecesAreCut(limit: nat, para: string)
    requires limit > 0
    ensures IsCut(limit, para, PiecesOf(limit, para))
    decreases |para|
  {
    if |para| > limit {
      var c := CutAt(para, limit);
      var e := StripAt(para[c..]);
      StripFrom(para, c, e);
      CutIsRight(limit, para, c, c + e);
      PiecesAreCut(limit, LStrip(para[c..]));
      MorePieces(limit, para, para[..c], c + e, PiecesOf(limit, LStrip(para[c..])));
    }
  }

  lemma {:induction false} PiecesArePacked(limit: nat, out: seq<string>, para: string)
    requires limit > 0
    ensures var pieces := PiecesOf(limit, para);
      AddParagraph(limit, Packed(out, ""), para) == Packed(out + pieces[..|pieces| - 1], pieces[|pieces| - 1])
    decreases |para|
  {
    if |para| > limit {
      var c := CutAt(para, limit);
      var rest := LStrip(para[c..]);
      PiecesArePacked(limit, out + [para[..c]], rest);
      OnePieceMore(out, para[..c], PiecesOf(limit, rest));
    } else {
      assert out + [] == out;
    }
  }

  lemma OnePieceMore(out: seq<string>, piece: string, more: seq<string>)
    requires more != []
    ensures var pieces := [piece] + more;
      && out + pieces[..|pieces| - 1] == (out + [piece]) + more[..|more| - 1]
      && pieces[|pieces| - 1] == more[|more| - 1]
  {
    assert ([piece] + more)[..|more|] == [piece] + more[..|more| - 1];
  }

  /** A paragraph that is too long closes the open chunk; all pieces but the last are chunks of their own. */
  lemma LongParagraph(limit: nat, p: Packed, para: string) returns (pieces: seq<string>)
    requires limit > 0 && |para| > limit
    ensures IsCut(limit, para, pieces) && |pieces| > 1
    ensures AddParagraph(limit, p, para) == Packed(Flush(p).out + pieces[..|pieces| - 1], pieces[|pieces| - 1])
  {
    pieces := PiecesOf(limit, para);
    PiecesAreCut(limit, para);
    ClosesFirst(limit, p, para);
    PiecesArePacked(limit, Flush(p).out, para);
  }

  lemma ClosesFirst(limit: nat, p: Packed, para: string)
    requires limit > 0 && |para| > limit
    ensures AddParagraph(limit, p, para) == AddParagraph(limit, Packed(Flush(p).out, ""), para)
  {
  }

  lemma StripFrom(para: string, c: nat, e: nat)
    requires c <= |para| && e <= |para| - c
    ensures para[c..][e..] == para[c + e..] && para[c..][..e] == para[c..c + e]
  {
  }

  lemma MorePieces(limit: nat, para: string, piece: string, d: nat, more: seq<string>)
    requires |para| > limit && d <= |para| && CutFirst(limit, para, piece, d) && IsCut(limit, para[d..], more) && more != []
    ensures IsCut(limit, para, [piece] + more)
  {
    assert ([piece] + more)[1..] == more;
  }

  lemma CutIsRight(limit: nat, para: string, c: nat, d: nat)
    requires 0 < limit < |para| && c == CutAt(para, limit) && c <= d <= |para|
    requires AllSpace(para[c..d]) && (d < |para| ==> !IsSpace(para[d]))
    ensures CutFirst(limit, para, para[..c], d)
  {
  }

  // ------------------------------------------------------------ short paragraphs

  /** Paragraphs with an empty line between them. */
  function Glue(paras: seq<string>): string {
    if |paras| == 0 then "" else if |paras| == 1 then paras[0]
    else Glue(paras[..|paras| - 1]) + "\n\n" + paras[|paras| - 1]
  }

  /** Paragraphs that need no cutting. */
  ghost predicate Short(limit: nat, paras: seq<string>) {
    forall i :: 0 <= i < |paras| ==> 0 < |paras[i]| <= limit
  }

  /** The chunks are consecutive paragraphs glued together, each as many as fit. */
  ghost predicate PackedTight(limit: nat, paras: seq<string>, groups: seq<seq<string>>, chunks: seq<string>) {
    && |groups| == |chunks| && Flatten(groups) == paras
    && (forall i :: 0 <= i < |groups| ==> groups[i] != [] && chunks[i] == Glue(groups[i]))
    && (forall i :: 0 <= i < |groups| - 1 ==> |chunks[i]| + 2 + |groups[i + 1][0]| > limit)
  }

  lemma {:induction false} GlueIsText(paras: seq<string>)
    requires paras != [] && forall i :: 0 <= i < |paras| ==> paras[i] != ""
    ensures Glue(paras) != ""
  {
    if |paras| > 1 { GlueIsText(paras[..|paras| - 1]); }
  }

  /** Short paragraphs are packed greedily: in order, with nothing between two chunks that would have fit. */
  lemma {:induction false} ShortParagraphs(limit: nat, paras: seq<string>) returns (groups: seq<seq<string>>)
    requires limit > 0 && Short(limit, paras)
    ensures PackedTight(limit, paras, groups, Flush(AddAll(limit, paras)).out)
    ensures paras != [] ==> AddAll(limit, paras).cur != ""
  {
    if paras == [] {
      groups := [];
    } else {
      var n := |paras| - 1;
      var before := ShortParagraphs(limit, paras[..n]);
      var p, para := AddAll(limit, paras[..n]), paras[n];
      assert paras == paras[..n] + [para];
      if n == 0 {
        groups := [[para]];
        FirstGroup(limit, para);
      } else if |p.cur| + |para| + 2 > limit {
        groups := before + [[para]];
        NewGroup(limit, paras[..n], before, Flush(p).out, para);
      } else {
        var k := |before| - 1;
        groups := before[..k] + [before[k] + [para]];
        GrownGroup(limit, paras[..n], before, p, para);
      }
    }
  }

  lemma FirstGroup(limit: nat, para: string)
    requires 0 < |para| <= limit
    ensures PackedTight(limit, [para], [[para]], [para]) && AddAll(limit, [para]) == Packed([], para)
  {
    assert [[para]][1..] == [] && [para][..0] == [];
    assert Flatten([[para]]) == [para] + Flatten([]);
    assert AddAll(limit, []) == Packed([], "");
  }

  lemma NewGroup(limit: nat, paras: seq<string>, groups: seq<seq<string>>, chunks: seq<string>, para: string)
    requires PackedTight(limit, paras, groups, chunks) && chunks != []
    requires |chunks[|chunks| - 1]| + 2 + |para| > limit
    ensures PackedTight(limit, paras + [para], groups + [[para]], chunks + [para])
  {
    FlattenSnoc(groups, [para]);
  }

  lemma GrownGroup(limit: nat, paras: seq<string>, groups: seq<seq<string>>, p: Packed, para: string)
    requires p.cur != "" && PackedTight(limit, paras, groups, p.out + [p.cur])
    ensures var k := |groups| - 1;
      PackedTight(limit, paras + [para], groups[..k] + [groups[k] + [para]], p.out + [p.cur + "\n\n" + para])
  {
    var k := |groups| - 1;
    FlattenLast(groups);
    FlattenSnoc(groups[..k], groups[k] + [para]);
    assert (groups[k] + [para])[..|groups[k]|] == groups[k];
    assert Glue(groups[k] + [para]) == Glue(groups[k]) + "\n\n" + para;
    var more, chunks := groups[..k] + [groups[k] + [para]], p.out + [p.cur + "\n\n" + para];
    forall i | 0 <= i < |more| ensures more[i] != [] && chunks[i] == Glue(more[i]) {
      if i < k { assert more[i] == groups[i] && chunks[i] == (p.out + [p.cur])[i]; }
    }
    forall i | 0 <= i < |more| - 1 ensures |chunks[i]| + 2 + |more[i + 1][0]| > limit {
      assert more[i + 1][0] == groups[i + 1][0] && chunks[i] == (p.out + [p.cur])[i];
    }
  }
}
