/**
 * combine_md.py and combine_txt.py: collect the entries whose name starts
 * with `DD-MM-YYYY` (followed by `.md` for combine_md.py),
 * turn each name into a `datetime`, sort the `(date, name)` tuples and write
 * one framed section per entry into a single output text.
 *
 * The two scripts differ in three places, captured by a `Variant`: whether
 * `.md` must follow the date, whether strftime's pattern puts a comma after
 * the day, and whether a banner opens the output.
 */
module Combine {
  import opened Wrappers
  import opened Text
  import opened Calendar
  import opened Sorting
  import opened Directory

  datatype Variant = Variant(
    requireMdSuffix: bool,
    commaAfterDay: bool,
    banner: string,
    missingDirMessage: string)

  /** combine_md.py: `(\d{2})-(\d{2})-(\d{4})\.md`, `"%B %d %Y"`, no banner. */
  const CombineMd := Variant(true, false, "", "Dir not exist: combine_files/files/journal-past")

  /**
   * combine_txt.py: `(\d{2})-(\d{2})-(\d{4})`, `"%B %d, %Y"`, a banner; its
   * missing-directory message lacks the f-prefix and so shows `{dir}` literally.
   */
  const CombineTxt := Variant(false, true, "===Journal-app entries===\n\n", "Dir not found: {dir}")

  // ----- name matching and date construction

  /** `(\d{2})-(\d{2})-(\d{4})` at the start of the name (`re.match` anchors only there). */
  predicate CanonicalPrefix(name: string)
  {
    |name| >= 10 &&
    IsDigit(name[0]) && IsDigit(name[1]) && name[2] == '-' &&
    IsDigit(name[3]) && IsDigit(name[4]) && name[5] == '-' &&
    IsDigit(name[6]) && IsDigit(name[7]) && IsDigit(name[8]) && IsDigit(name[9])
  }

  predicate Matches(v: Variant, name: string)
  {
    CanonicalPrefix(name) && (v.requireMdSuffix ==> |name| >= 13 && name[10..13] == ".md")
  }

  /** `match.groups()`: day, month, year. */
  datatype Groups = Groups(day: string, month: string, year: string)

  predicate WellFormedGroups(g: Groups)
  {
    |g.day| == 2 && |g.month| == 2 && |g.year| == 4 && AllDigits(g.day) && AllDigits(g.month) && AllDigits(g.year)
  }

  function MatchCanonical(v: Variant, name: string): (r: Option<Groups>)
    ensures r.Some? <==> Matches(v, name)
    ensures r.Some? ==> WellFormedGroups(r.value) && r.value.day + "-" + r.value.month + "-" + r.value.year == name[..10]
  {
    if Matches(v, name) then Some(Groups(name[..2], name[3..5], name[6..10])) else None
  }

  /** `datetime(int(year), int(month), int(day))`; `None` where Python raises `ValueError`. */
  function DateOf(g: Groups): (r: Option<Datetime>)
    requires WellFormedGroups(g)
    ensures r.Some? <==> IsValid(Date(DecimalValue(g.year), DecimalValue(g.month), DecimalValue(g.day)))
    ensures r.Some? ==>
      r.value.year == DecimalValue(g.year) && r.value.month == DecimalValue(g.month) && r.value.day == DecimalValue(g.day)
  {
    MakeDatetime(DecimalValue(g.year), DecimalValue(g.month), DecimalValue(g.day))
  }

  /** The name matches and its date is a real calendar date. */
  predicate Accepts(v: Variant, x: Dated)
  {
    MatchCanonical(v, x.name).Some? && DateOf(MatchCanonical(v, x.name).value) == Some(x.date)
  }

  /** The name matches but `datetime(...)` raises on it. */
  predicate Rejects(v: Variant, name: string)
  {
    MatchCanonical(v, name).Some? && DateOf(MatchCanonical(v, name).value).None?
  }

  /** `a` is `b` with some elements left out, the rest kept in their order. */
  predicate Subsequence(a: seq<string>, b: seq<string>)
    decreases |b|
  {
    if b == [] then a == []
    else
      (a != [] && a[|a| - 1] == b[|b| - 1] && Subsequence(a[..|a| - 1], b[..|b| - 1]))
      || Subsequence(a, b[..|b| - 1])
  }

  /** The listed names the pattern matches, in listing order. */
  function MatchedNames(v: Variant, listing: seq<string>): (r: seq<string>)
    ensures forall n :: n in r <==> n in listing && Matches(v, n)
    ensures Distinct(listing) ==> Distinct(r)
    ensures |r| <= |listing|
    decreases |listing|
  {
    if listing == [] then []
    else
      var init := listing[..|listing| - 1];
      var last := listing[|listing| - 1];
      assert listing == init + [last];
      var r := MatchedNames(v, init);
      if Matches(v, last) then r + [last] else r
  }

  /** The matched names keep the order they have in the listing. */
  lemma {:induction false} MatchedNamesInListingOrder(v: Variant, listing: seq<string>)
    ensures Subsequence(MatchedNames(v, listing), listing)
    decreases |listing|
  {
    if listing != [] {
      MatchedNamesInListingOrder(v, listing[..|listing| - 1]);
    }
  }

  // ----- the first loop: collecting (date, name) tuples

  datatype Collected =
    | Collected(items: seq<Dated>)
    /** `datetime(...)` raised on this name; the run ends before the output is opened. */
    | InvalidDate(name: string)

  /** The `file_date` list after the first loop over `listing`. */
  function Collect(v: Variant, listing: seq<string>): (r: Collected)
    ensures r.InvalidDate? ==> r.name in listing && Rejects(v, r.name)
    ensures r.Collected? ==> |r.items| <= |listing|
    decreases |listing|
  {
    if listing == [] then Collected([])
    else
      var name := listing[|listing| - 1];
      match Collect(v, listing[..|listing| - 1])
      case InvalidDate(n) => InvalidDate(n)
      case Collected(items) =>
        match MatchCanonical(v, name)
        case None => Collected(items)
        case Some(g) =>
          match DateOf(g)
          case None => InvalidDate(name)
          case Some(d) => Collected(items + [Dated(d, name)])
  }

  /**
   * The first loop succeeds exactly when no matched name has an impossible
   * date; otherwise it stops at such a name. On success it holds one tuple per
   * matched name, in listing order, with that name's date.
   */
  lemma {:induction false} CollectSpec(v: Variant, listing: seq<string>)
    ensures Collect(v, listing).Collected? <==> forall n :: n in listing ==> !Rejects(v, n)
    ensures Collect(v, listing).InvalidDate? ==>
      Collect(v, listing).name in listing && Rejects(v, Collect(v, listing).name)
    ensures Collect(v, listing).Collected? ==>
      var items := Collect(v, listing).items;
      |items| == |MatchedNames(v, listing)| &&
      forall i :: 0 <= i < |items| ==> items[i].name == MatchedNames(v, listing)[i] && Accepts(v, items[i])
    decreases |listing|
  {
    if listing != [] {
      var init := listing[..|listing| - 1];
      var last := listing[|listing| - 1];
      assert listing == init + [last];
      assert forall n :: n in listing <==> n in init || n == last;
      CollectSpec(v, init);
    }
  }

  /** The collected tuples are exactly the accepted entries of the directory, one per name. */
  lemma CollectMembers(v: Variant, listing: seq<string>, files: Files)
    requires IsListing(listing, files)
    requires Collect(v, listing).Collected?
    ensures forall x :: x in Collect(v, listing).items <==> x.name in files && Accepts(v, x)
    ensures DistinctNames(Collect(v, listing).items)
  {
    CollectSpec(v, listing);
    var items := Collect(v, listing).items;
    var names := MatchedNames(v, listing);
    forall x ensures x in items <==> x.name in files && Accepts(v, x) {
      if x.name in files && Accepts(v, x) {
        assert x.name in names;
        var i :| 0 <= i < |names| && names[i] == x.name;
        assert items[i] == x;
      }
      if x in items {
        var i :| 0 <= i < |items| && items[i] == x;
        assert names[i] in names;
      }
    }
  }

  // ----- the second loop: writing the sections

  /** `strftime("%B %d %Y")`, or `strftime("%B %d, %Y")` with the comma. */
  function DateText(v: Variant, d: Datetime): string
  {
    MonthNames[d.month - 1] + " " + PadDecimal(d.day, 2) + (if v.commaAfterDay then ", " else " ") + PadDecimal(d.year, 4)
  }

  /** The month names are plain words. */
  lemma MonthNamesAreWords()
    ensures forall i, k :: 0 <= i < 12 && 0 <= k < |MonthNames[i]| ==> IsAsciiLetter(MonthNames[i][k])
  {
  }

  /**
   * The date text is one line of the month name, a space, two day digits, a
   * space or a comma and a space, and four year digits; the header frames it
   * with `==` and ends the line with a blank line after it.
   */
  lemma HeaderIsOneLine(v: Variant, d: Datetime)
    ensures var t := DateText(v, d);
      && |t| == |MonthNames[d.month - 1]| + (if v.commaAfterDay then 9 else 8)
      && forall k :: 0 <= k < |t| ==> t[k] != '\n'
    ensures var h := Header(v, d);
      && h[..2] == "==" && h[2..|h| - 4] == DateText(v, d) && h[|h| - 4..] == "==\n\n"
      && forall k :: 0 <= k < |h| - 2 ==> h[k] != '\n'
  {
    var m := MonthNames[d.month - 1];
    var sep := if v.commaAfterDay then ", " else " ";
    var t := DateText(v, d);
    MonthNamesAreWords();
    assert t == m + " " + PadDecimal(d.day, 2) + sep + PadDecimal(d.year, 4);
    forall k | 0 <= k < |t| ensures t[k] != '\n' {
      if k < |m| {
        assert t[k] == m[k];
      } else if |m| < k < |m| + 3 {
        assert t[k] == PadDecimal(d.day, 2)[k - |m| - 1];
      } else if k >= |m| + 3 + |sep| {
        assert t[k] == PadDecimal(d.year, 4)[k - |m| - 3 - |sep|];
      }
    }
    var h := Header(v, d);
    assert h == "==" + t + "==\n\n";
    forall k | 0 <= k < |h| - 2 ensures h[k] != '\n' {
      if 2 <= k < |h| - 4 {
        assert h[k] == t[k - 2];
      }
    }
  }

  /** `f"=={date}==\n\n"`. */
  function Header(v: Variant, d: Datetime): string
  {
    "==" + DateText(v, d) + "==\n\n"
  }

  /** The text of the entry, or `None` when opening or reading it raises. */
  function ReadFile(files: Files, name: string): Option<string>
  {
    if name in files && files[name].File? then Some(files[name].content) else None
  }

  /**
   * What one iteration writes: the header first; then the content and the
   * blank line only if the read succeeded.
   */
  function Section(v: Variant, x: Dated, files: Files): string
  {
    Header(v, x.date) + Body(files, x.name)
  }

  /** What follows a header: the content and a blank line, or nothing when the read raises. */
  function Body(files: Files, name: string): string
  {
    match ReadFile(files, name) case Some(c) => c + "\n\n" case None => ""
  }

  /** Nothing follows a header exactly when the read fails; otherwise the content, then a blank line. */
  lemma BodyShape(files: Files, name: string)
    ensures Body(files, name) == "" <==> ReadFile(files, name).None?
    ensures ReadFile(files, name).Some? ==>
      var r := Body(files, name);
      |r| >= 2 && r[..|r| - 2] == ReadFile(files, name).value && r[|r| - 2..] == "\n\n"
  {
  }

  /** The section written for each tuple, in order. */
  function SectionTexts(v: Variant, xs: seq<Dated>, files: Files): (r: seq<string>)
    ensures |r| == |xs|
    decreases |xs|
  {
    if xs == [] then [] else SectionTexts(v, xs[..|xs| - 1], files) + [Section(v, xs[|xs| - 1], files)]
  }

  /** Piece i of the output is the section of the i-th tuple: its header, then its body. */
  lemma {:induction false} SectionOf(v: Variant, xs: seq<Dated>, files: Files, i: nat)
    requires i < |xs|
    ensures SectionTexts(v, xs, files)[i] == Header(v, xs[i].date) + Body(files, xs[i].name)
    decreases |xs|
  {
    if i < |xs| - 1 {
      SectionOf(v, xs[..|xs| - 1], files, i);
    }
  }

  datatype CombineResult =
    /** Reported and returned; the output is never opened. */
    | DirNotFound(message: string)
    /** `ValueError` from `datetime(...)`; raised before the output is opened. */
    | DateRejected(name: string)
    /** The output text, and the count the final message reports. */
    | Written(text: string, count: nat)

  /** `main()` of either script. */
  function CombineMain(v: Variant, dirExists: bool, listing: seq<string>, files: Files): (r: CombineResult)
    ensures !dirExists <==> r.DirNotFound?
    ensures r.DirNotFound? ==> r.message == v.missingDirMessage
    ensures r.DateRejected? ==> r.name in listing && Rejects(v, r.name)
    ensures r.Written? ==> v.banner <= r.text && r.count <= |listing|
  {
    if !dirExists then DirNotFound(v.missingDirMessage)
    else
      match Collect(v, listing)
      case InvalidDate(n) => DateRejected(n)
      case Collected(items) =>
        var sorted := Sort(items);
        assert |sorted| == |items| by { assert |multiset(sorted)| == |multiset(items)|; }
        Written(v.banner + Concat(SectionTexts(v, sorted, files)), |sorted|)
  }

  /** `main()` of either script: check the directory, collect, sort, write. */
  method CombineFiles(v: Variant, dirExists: bool, listing: seq<string>, files: Files) returns (result: CombineResult)
    ensures result == CombineMain(v, dirExists, listing, files)
    ensures !dirExists ==> result == DirNotFound(v.missingDirMessage)
  {
    if !dirExists {
      return DirNotFound(v.missingDirMessage);
    }
    var collected := CollectFileDates(v, listing);
    match collected {
      case InvalidDate(name) =>
        return DateRejected(name);
      case Collected(fileDate) =>
        var sorted := Sort(fileDate);
        var out := WriteOutput(v, sorted, files);
        return Written(out, |sorted|);
    }
  }

  /** The first loop: append a tuple per matched name, raising on an impossible date. */
  method CollectFileDates(v: Variant, listing: seq<string>) returns (collected: Collected)
    ensures collected == Collect(v, listing)
  {
    var fileDate: seq<Dated> := [];
    var i := 0;
    while i < |listing|
      invariant 0 <= i <= |listing|
      invariant Collect(v, listing[..i]) == Collected(fileDate)
    {
      var name := listing[i];
      assert listing[..i + 1][..i] == listing[..i];
      match MatchCanonical(v, name) {
        case None =>
        case Some(g) =>
          var date := DateOf(g);
          if date.None? {
            CollectStopsAtInvalid(v, listing, i + 1);
            return InvalidDate(name);
          }
          fileDate := fileDate + [Dated(date.value, name)];
      }
      i := i + 1;
    }
    assert listing[..i] == listing;
    return Collected(fileDate);
  }

  /** The second loop: the banner, then per tuple a header, and the content and a blank line if the read succeeds. */
  method WriteOutput(v: Variant, sorted: seq<Dated>, files: Files) returns (out: string)
    ensures out == v.banner + Concat(SectionTexts(v, sorted, files))
  {
    ghost var parts := SectionTexts(v, sorted, files);
    out := v.banner;
    var j := 0;
    while j < |sorted|
      invariant 0 <= j <= |sorted|
      invariant out == v.banner + Concat(parts[..j])
    {
      ghost var done := Concat(parts[..j]);
      out := WriteSection(v, sorted[j], files, out);
      ConcatExtend(parts, j);
      SectionOf(v, sorted, files, j);
      AppendAssociative(v.banner, done, parts[j]);
      j := j + 1;
    }
    assert parts[..j] == parts;
  }

  /** One iteration of the second loop, appending to what was written so far. */
  method WriteSection(v: Variant, entry: Dated, files: Files, written: string) returns (out: string)
    ensures out == written + Section(v, entry, files)
  {
    var header := Header(v, entry.date);
    out := written + header;
    match ReadFile(files, entry.name) {
      case Some(content) =>
        out := out + content;
        out := out + "\n\n";
        assert out == written + (header + (content + "\n\n"));
      case None =>
    }
  }

  /** Once the first loop has raised, the rest of the listing does not matter. */
  lemma {:induction false} CollectStopsAtInvalid(v: Variant, listing: seq<string>, k: nat)
    requires k <= |listing| && Collect(v, listing[..k]).InvalidDate?
    ensures Collect(v, listing) == Collect(v, listing[..k])
    decreases |listing| - k
  {
    if k < |listing| {
      assert listing[..k + 1][..k] == listing[..k];
      CollectStopsAtInvalid(v, listing, k + 1);
    } else {
      assert listing[..k] == listing;
    }
  }

  // ----- properties of the output

  /**
   * A written output is the banner followed by one section per accepted
   * entry, in strictly ascending (date, name) order; the count it reports is
   * the number of matched names, read failures included.
   */
  lemma CombineOutputShape(v: Variant, listing: seq<string>, files: Files)
    requires IsListing(listing, files)
    ensures CombineMain(v, true, listing, files).Written? <==> forall n :: n in files ==> !Rejects(v, n)
    ensures CombineMain(v, true, listing, files).Written? ==>
      var xs := Sort(Collect(v, listing).items);
      && StrictlySorted(xs)
      && (forall x :: x in xs <==> x.name in files && Accepts(v, x))
      && CombineMain(v, true, listing, files) == Written(v.banner + Concat(SectionTexts(v, xs, files)), |xs|)
      && |xs| == |MatchedNames(v, listing)|
  {
    CollectSpec(v, listing);
    if Collect(v, listing).Collected? {
      var items := Collect(v, listing).items;
      var xs := Sort(items);
      CollectMembers(v, listing, files);
      PermutationKeepsMembers(items, xs);
      PermutationKeepsDistinctNames(items, xs);
      SortedDistinctIsStrict(xs);
    }
  }

  /**
   * The output does not depend on the order `os.listdir` returns: any two
   * listings of the same directory both raise or both write the same text
   * with the same count.
   */
  lemma CombineIndependentOfListingOrder(v: Variant, dirExists: bool, listing1: seq<string>, listing2: seq<string>, files: Files)
    requires IsListing(listing1, files) && IsListing(listing2, files)
    ensures CombineMain(v, dirExists, listing1, files).DateRejected? <==> CombineMain(v, dirExists, listing2, files).DateRejected?
    ensures !CombineMain(v, dirExists, listing1, files).DateRejected? ==>
      CombineMain(v, dirExists, listing1, files) == CombineMain(v, dirExists, listing2, files)
  {
    CombineOutputShape(v, listing1, files);
    CombineOutputShape(v, listing2, files);
    if dirExists && CombineMain(v, true, listing1, files).Written? {
      StrictlySortedUnique(Sort(Collect(v, listing1).items), Sort(Collect(v, listing2).items));
    }
  }

  /** An empty result: only the banner is written (nothing at all for combine_md.py). */
  lemma NothingMatchedWritesBanner(v: Variant, listing: seq<string>, files: Files)
    requires forall n :: n in listing ==> !Matches(v, n)
    ensures CombineMain(v, true, listing, files) == Written(v.banner, 0)
  {
    CollectSpec(v, listing);
    NoMatchedNames(v, listing);
  }

  lemma {:induction false} NoMatchedNames(v: Variant, listing: seq<string>)
    requires forall n :: n in listing ==> !Matches(v, n)
    ensures MatchedNames(v, listing) == []
    decreases |listing|
  {
    if listing != [] {
      var init := listing[..|listing| - 1];
      assert forall n :: n in init ==> n in listing;
      assert listing[|listing| - 1] in listing;
      NoMatchedNames(v, init);
    }
  }

  /**
   * The header echoes the file name: the day and year digits appear as they
   * were written, and the month digits select the full English month name.
   */
  lemma HeaderEchoesName(v: Variant, name: string, d: Datetime)
    requires Accepts(v, Dated(d, name))
    ensures 1 <= DecimalValue(name[3..5]) <= 12
    ensures Header(v, d) ==
      "==" + (MonthNames[DecimalValue(name[3..5]) - 1] + " " + name[..2] +
      (if v.commaAfterDay then ", " else " ") + name[6..10]) + "==\n\n"
  {
    DateEchoesName(v, name, d);
  }

  /** The accepted date's fields, printed back, are the digits of the name. */
  lemma DateEchoesName(v: Variant, name: string, d: Datetime)
    requires Accepts(v, Dated(d, name))
    ensures |name| >= 10 && d.month == DecimalValue(name[3..5])
    ensures PadDecimal(d.day, 2) == name[..2] && PadDecimal(d.year, 4) == name[6..10]
  {
    var g := MatchCanonical(v, name).value;
    PadDecimalOfValue(g.day);
    PadDecimalOfValue(g.year);
  }
}
