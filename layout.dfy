/**
 * Where each piece of a written journal file sits: the header of every
 * section, the content after it, and the orphaned header a failed read
 * leaves behind.
 */
module Layout {
  import opened Text
  import opened Sorting
  import opened Directory
  import opened Calendar
  import opened Combine

  /** Where section i starts in the output: after the banner and the sections before it. */
  function SectionStart(v: Variant, xs: seq<Dated>, files: Files, i: nat): nat
    requires i <= |xs|
  {
    |v.banner| + |Concat(SectionTexts(v, xs, files)[..i])|
  }

  /** Section i of the output begins with the header of the i-th tuple. */
  lemma HeaderAt(v: Variant, xs: seq<Dated>, files: Files, i: nat)
    requires i < |xs|
    ensures OccursAt(v.banner + Concat(SectionTexts(v, xs, files)), SectionStart(v, xs, files, i), Header(v, xs[i].date))
  {
    SectionOf(v, xs, files, i);
    SplitSection(v, xs, files, i, Header(v, xs[i].date), Body(files, xs[i].name));
  }

  /** When the entry can be read, its content and a blank line follow the header. */
  lemma ContentAfterHeader(v: Variant, xs: seq<Dated>, files: Files, i: nat)
    requires i < |xs| && ReadFile(files, xs[i].name).Some?
    ensures
      OccursAt(v.banner + Concat(SectionTexts(v, xs, files)), SectionStart(v, xs, files, i) + |Header(v, xs[i].date)|,
               ReadFile(files, xs[i].name).value + "\n\n")
  {
    BodyAfterHeader(v, xs, files, i);
    assert Body(files, xs[i].name) == ReadFile(files, xs[i].name).value + "\n\n";
  }

  /** What follows the header of section i is that entry's body. */
  lemma BodyAfterHeader(v: Variant, xs: seq<Dated>, files: Files, i: nat)
    requires i < |xs|
    ensures OccursAt(v.banner + Concat(SectionTexts(v, xs, files)), SectionStart(v, xs, files, i) + |Header(v, xs[i].date)|, Body(files, xs[i].name))
  {
    SectionOf(v, xs, files, i);
    SplitSection(v, xs, files, i, Header(v, xs[i].date), Body(files, xs[i].name));
  }

  /** Section i split as `h + b`: where each half sits in the output. */
  lemma SplitSection(v: Variant, xs: seq<Dated>, files: Files, i: nat, h: string, b: string)
    requires i < |xs| && SectionTexts(v, xs, files)[i] == h + b
    ensures OccursAt(v.banner + Concat(SectionTexts(v, xs, files)), SectionStart(v, xs, files, i), h)
    ensures OccursAt(v.banner + Concat(SectionTexts(v, xs, files)), SectionStart(v, xs, files, i) + |h|, b)
  {
    var parts := SectionTexts(v, xs, files);
    HeadOfPiece(v.banner, parts, i, h, b);
    TailOfPiece(v.banner, parts, i, h, b);
  }

  /** When the last entry cannot be read, the output ends with its header. */
  lemma OrphanedLastHeader(v: Variant, xs: seq<Dated>, files: Files)
    requires |xs| > 0 && ReadFile(files, xs[|xs| - 1].name).None?
    ensures SectionStart(v, xs, files, |xs| - 1) + |Header(v, xs[|xs| - 1].date)| == |v.banner + Concat(SectionTexts(v, xs, files))|
  {
    var parts := SectionTexts(v, xs, files);
    var i := |xs| - 1;
    SectionOf(v, xs, files, i);
    assert parts[i] == Header(v, xs[i].date);
    AfterWholePiece(v.banner, parts, i, Header(v, xs[i].date), "");
  }

  /**
   * When any other entry cannot be read, nothing is written between its
   * header and the next one: the next section starts right after the header,
   * with its own header.
   */
  lemma OrphanedHeader(v: Variant, xs: seq<Dated>, files: Files, i: nat)
    requires i + 1 < |xs| && ReadFile(files, xs[i].name).None?
    ensures SectionStart(v, xs, files, i) + |Header(v, xs[i].date)| == SectionStart(v, xs, files, i + 1)
    ensures OccursAt(v.banner + Concat(SectionTexts(v, xs, files)), SectionStart(v, xs, files, i + 1), Header(v, xs[i + 1].date))
  {
    SectionOf(v, xs, files, i);
    ConcatExtend(SectionTexts(v, xs, files), i);
    HeaderAt(v, xs, files, i + 1);
  }
}
