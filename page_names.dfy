/** The names of rendered pages and archive entries:
    "<stem>-<index zero-padded to the digit count of count><extension>",
    and the GUID text (Guid.ToString("N").ToUpper()) used as their stem. */
module PageNames {
  import opened Common
  import opened Decimal

  predicate IsUpperHex(c: char) {
    '0' <= c <= '9' || 'A' <= c <= 'F'
  }

  /** Guid.NewGuid().ToString("N").ToUpper(): 32 upper-case hex digits, no
      dashes. GUIDs themselves are inputs of the model. */
  predicate IsGuidN(s: string) {
    |s| == 32 && forall i :: 0 <= i < |s| ==> IsUpperHex(s[i])
  }

  /** A stem as the renderer and the archive use it: no '-', '.' or '/'. */
  predicate PlainStem(s: string) {
    Excludes(s, '-') && Excludes(s, '.') && Excludes(s, '/')
  }

  lemma GuidIsPlainStem(g: string)
    requires IsGuidN(g)
    ensures PlainStem(g)
  {
  }

  /** $"{stem}-{index.ToString($"D{digits}")}{extension}" with digits = count.ToString().Length. */
  function PagedName(stem: string, index: nat, count: nat, extension: string): string {
    stem + "-" + PadD(index, Digits(count)) + extension
  }

  /** The padded index of a name, as its middle part. */
  lemma PagedNameParts(stem: string, index: nat, count: nat, extension: string)
    ensures var n := PagedName(stem, index, count, extension);
      var k := |stem| + 1 + |PadD(index, Digits(count))|;
      k <= |n| && n[..|stem|] == stem && n[|stem|] == '-'
      && n[|stem| + 1..k] == PadD(index, Digits(count)) && n[k..] == extension
  {
  }

  /** The indices below count are padded to one width, so all names of one
      batch have the same length. */
  lemma PagedNameLength(stem: string, index: nat, count: nat, extension: string)
    requires index < count
    ensures |PagedName(stem, index, count, extension)| == |stem| + 1 + Digits(count) + |extension|
  {
    FitsCountWidth(index, count);
    PadWidth(index, Digits(count));
  }

  /** Two indices of one batch never share a name. */
  lemma PagedNamesDistinct(stem: string, i: nat, j: nat, count: nat, extension: string)
    requires i < count && j < count && i != j
    ensures PagedName(stem, i, count, extension) != PagedName(stem, j, count, extension)
  {
    var w := Digits(count);
    FitsCountWidth(i, count);
    FitsCountWidth(j, count);
    PadWidth(i, w);
    PadWidth(j, w);
    PagedNameParts(stem, i, count, extension);
    PagedNameParts(stem, j, count, extension);
    if PagedName(stem, i, count, extension) == PagedName(stem, j, count, extension) {
      PadInjective(i, j, w);
    }
  }

  /** Sorting the names of one batch as text sorts them by index. */
  lemma PagedNamesOrdered(stem: string, i: nat, j: nat, count: nat, extension: string)
    requires i < count && j < count
    ensures LexLess(PagedName(stem, i, count, extension), PagedName(stem, j, count, extension)) <==> i < j
  {
    var w := Digits(count);
    FitsCountWidth(i, count);
    FitsCountWidth(j, count);
    PadWidth(i, w);
    PadWidth(j, w);
    var p := stem + "-";
    assert PagedName(stem, i, count, extension) == p + (PadD(i, w) + extension);
    assert PagedName(stem, j, count, extension) == p + (PadD(j, w) + extension);
    LexLessCommonPrefix(p, PadD(i, w) + extension, PadD(j, w) + extension);
    LexLessEqualLengthHeads(PadD(i, w), extension, PadD(j, w), extension);
    LexLessIrreflexive(extension);
    PadOrder(i, j, w);
    if PadD(i, w) == PadD(j, w) {
      PadInjective(i, j, w);
    }
  }

  /** $"{stem}_Pagina_{n:D3}{extension}": the names the document services
      give single page images. */
  function PaginaName(stem: string, n: int, extension: string): string {
    stem + "_Pagina_" + FormatD(n, 3) + extension
  }

  /** Two page numbers never share a name, whatever their width. */
  lemma PaginaNamesDistinct(stem: string, i: nat, j: nat, extension: string)
    requires i != j
    ensures PaginaName(stem, i, extension) != PaginaName(stem, j, extension)
  {
    var p := stem + "_Pagina_";
    var a, b := PadD(i, 3), PadD(j, 3);
    assert PaginaName(stem, i, extension) == p + a + extension;
    assert PaginaName(stem, j, extension) == p + b + extension;
    if PaginaName(stem, i, extension) == PaginaName(stem, j, extension) {
      assert |a| == |b|;
      assert (p + a + extension)[|p|..|p| + |a|] == a;
      assert (p + b + extension)[|p|..|p| + |b|] == b;
      PadInjective(i, j, 3);
    }
  }

  /** Up to page 999 the names sort as text in page order. */
  lemma PaginaNamesOrdered(stem: string, i: nat, j: nat, extension: string)
    requires i <= 999 && j <= 999
    ensures LexLess(PaginaName(stem, i, extension), PaginaName(stem, j, extension)) <==> i < j
  {
    DigitsBelowPow10(i, 3);
    DigitsBelowPow10(j, 3);
    PadWidth(i, 3);
    PadWidth(j, 3);
    var p := stem + "_Pagina_";
    assert PaginaName(stem, i, extension) == p + (PadD(i, 3) + extension);
    assert PaginaName(stem, j, extension) == p + (PadD(j, 3) + extension);
    LexLessCommonPrefix(p, PadD(i, 3) + extension, PadD(j, 3) + extension);
    LexLessEqualLengthHeads(PadD(i, 3), extension, PadD(j, 3), extension);
    LexLessIrreflexive(extension);
    PadOrder(i, j, 3);
    if PadD(i, 3) == PadD(j, 3) {
      PadInjective(i, j, 3);
    }
  }

  /** Page 1000 sorts before page 999: the order holds only up to 999 pages. */
  lemma PaginaOrderEndsAt999(stem: string, extension: string)
    ensures LexLess(PaginaName(stem, 1000, extension), PaginaName(stem, 999, extension))
  {
    var p := stem + "_Pagina_";
    assert PadD(1000, 3) == "1000";
    assert PadD(999, 3) == "999";
    assert PaginaName(stem, 1000, extension) == p + ("1000" + extension);
    assert PaginaName(stem, 999, extension) == p + ("999" + extension);
    LexLessCommonPrefix(p, "1000" + extension, "999" + extension);
  }
}
