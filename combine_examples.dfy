/**
 * Concrete runs of the two combiners, and the names and dates they accept
 * or refuse.
 *
 * Several lemmas here take their fixed inputs as parameters pinned by
 * `requires x == "..."` instead of writing the literal in the statement.
 * The lemma still speaks of that one value only; the solver then handles
 * it as a single term rather than re-expanding the literal at every use,
 * which keeps these proofs within the verifier's resource limit.
 */
module CombineExamples {
  import opened Wrappers
  import opened Text
  import opened Calendar
  import opened Sorting
  import opened Directory
  import opened Combine

  /** The md pattern wants `.md` right after the date; the txt pattern takes any tail. */
  lemma SuffixRules()
    ensures Matches(CombineMd, "01-03-2024.md") && !Matches(CombineMd, "01-03-2024.txt") && !Matches(CombineMd, "01-03-2024")
    ensures Matches(CombineTxt, "01-03-2024.txt") && Matches(CombineTxt, "01-03-2024foo") && Matches(CombineTxt, "01-03-2024.md")
    ensures !Matches(CombineTxt, "1-03-2024.txt") && !Matches(CombineTxt, "2024-Mar-01.md")
  {
    assert "01-03-2024.md"[10..13] == ".md";
    assert "01-03-2024.txt"[10..13] == ".tx";
  }

  /** 29 February exists in leap years: 2024, and 2000 (divisible by 400). */
  lemma LeapDayNames()
    ensures DateOf(Groups("29", "02", "2024")) == Some(Date(2024, 2, 29))
    ensures DateOf(Groups("29", "02", "2000")) == Some(Date(2000, 2, 29))
  {
    TwoDigitValue("29");
    TwoDigitValue("02");
    FourDigitValue("2024");
    FourDigitValue("2000");
  }

  /** 29 February does not exist in 2023, nor in 1900 (divisible by 100, not by 400). */
  lemma CommonYearLeapDayNames()
    ensures DateOf(Groups("29", "02", "2023")).None?
    ensures DateOf(Groups("29", "02", "1900")).None?
  {
    TwoDigitValue("29");
    TwoDigitValue("02");
    FourDigitValue("2023");
    FourDigitValue("1900");
  }

  /** A day or month out of range, and the year 0, make `datetime(...)` raise. */
  lemma OutOfRangeNames()
    ensures DateOf(Groups("31", "02", "2024")).None?
    ensures DateOf(Groups("00", "01", "2024")).None?
    ensures DateOf(Groups("01", "13", "2024")).None?
    ensures DateOf(Groups("01", "01", "0000")).None?
  {
    TwoDigitValue("31");
    TwoDigitValue("02");
    TwoDigitValue("00");
    TwoDigitValue("01");
    TwoDigitValue("13");
    FourDigitValue("2024");
    FourDigitValue("0000");
  }

  /** The slices the pattern's groups and suffix check take, character by character. */
  lemma FieldSlices(name: string)
    requires |name| >= 10
    ensures name[..2] == [name[0], name[1]] && name[3..5] == [name[3], name[4]]
    ensures name[6..10] == [name[6], name[7], name[8], name[9]]
    ensures |name| >= 13 ==> name[10..13] == [name[10], name[11], name[12]]
  {
  }

  // ----- a run of combine_md.py on two entries listed out of date order

  const March1 := "01-03-2024.md"
  const January15 := "15-01-2024.md"

  lemma MdScenarioMatches()
    ensures MatchCanonical(CombineMd, March1) == Some(Groups("01", "03", "2024"))
    ensures MatchCanonical(CombineMd, January15) == Some(Groups("15", "01", "2024"))
  {
    FieldSlices(March1);
    FieldSlices(January15);
  }

  lemma MdScenarioDates()
    ensures DateOf(Groups("01", "03", "2024")) == Some(Date(2024, 3, 1))
    ensures DateOf(Groups("15", "01", "2024")) == Some(Date(2024, 1, 15))
  {
    TwoDigitValue("01");
    TwoDigitValue("03");
    TwoDigitValue("15");
    FourDigitValue("2024");
  }

  lemma MdScenarioCollect(listing: seq<string>, x: Dated, y: Dated)
    requires listing == [March1, January15]
    requires x == Dated(Date(2024, 3, 1), March1) && y == Dated(Date(2024, 1, 15), January15)
    ensures Collect(CombineMd, listing) == Collected([x, y])
  {
    MdScenarioMatches();
    MdScenarioDates();
    var first := listing[..1];
    assert first == [March1] && first[..0] == [];
    assert Collect(CombineMd, first) == Collected([x]);
  }

  lemma MdScenarioSort(x: Dated, y: Dated)
    requires x == Dated(Date(2024, 3, 1), March1) && y == Dated(Date(2024, 1, 15), January15)
    ensures Sort([x, y]) == [y, x]
  {
    assert Less(y, x) && !LessEq(x, y);
    assert [x, y][1..] == [y] && [y][1..] == [];
    assert Sort([y]) == [y];
  }

  lemma PadTwo(n: nat, digits: string)
    requires |digits| == 2 && AllDigits(digits) && n == 10 * DigitValue(digits[0]) + DigitValue(digits[1])
    ensures PadDecimal(n, 2) == digits
  {
    TwoDigitValue(digits);
    PadDecimalOfValue(digits);
  }

  lemma PadYear2024()
    ensures PadDecimal(2024, 4) == "2024"
  {
    FourDigitValue("2024");
    PadDecimalOfValue("2024");
  }

  /** `%B %d %Y`: full month name, zero-padded day, no comma. */
  lemma HeaderJanuary15(d: Datetime)
    requires d == Date(2024, 1, 15)
    ensures Header(CombineMd, d) == "==" + ("January" + " " + "15" + " " + "2024") + "==\n\n"
  {
    PadTwo(15, "15");
    PadYear2024();
    assert MonthNames[0] == "January";
  }

  lemma HeaderMarch1(d: Datetime)
    requires d == Date(2024, 3, 1)
    ensures Header(CombineMd, d) == "==" + ("March" + " " + "01" + " " + "2024") + "==\n\n"
  {
    PadTwo(1, "01");
    PadYear2024();
    assert MonthNames[2] == "March";
  }

  lemma MdScenarioBodies(files: Files)
    requires files == map[March1 := File("A"), January15 := File("B")]
    ensures Body(files, January15) == "B\n\n" && Body(files, March1) == "A\n\n"
  {
    assert March1 != January15 by {
      assert March1[0] != January15[0];
    }
    assert files[March1] == File("A");
    assert "B" + "\n\n" == "B\n\n" && "A" + "\n\n" == "A\n\n";
  }

  /**
   * The entries are listed March first; the output holds January first, each
   * header followed by the content and a blank line, and reports two entries.
   */
  lemma MdScenarioSections(files: Files, x: Dated, y: Dated)
    requires files == map[March1 := File("A"), January15 := File("B")]
    requires x == Dated(Date(2024, 3, 1), March1) && y == Dated(Date(2024, 1, 15), January15)
    ensures SectionTexts(CombineMd, [y, x], files) ==
      ["==" + ("January" + " " + "15" + " " + "2024") + "==\n\n" + "B\n\n",
       "==" + ("March" + " " + "01" + " " + "2024") + "==\n\n" + "A\n\n"]
  {
    SectionOf(CombineMd, [y, x], files, 0);
    SectionOf(CombineMd, [y, x], files, 1);
    HeaderJanuary15(y.date);
    HeaderMarch1(x.date);
    MdScenarioBodies(files);
  }

  lemma MdScenario(listing: seq<string>, files: Files)
    requires listing == [March1, January15]
    requires files == map[March1 := File("A"), January15 := File("B")]
    ensures CombineMain(CombineMd, true, listing, files)
      == Written(
        "==" + ("January" + " " + "15" + " " + "2024") + "==\n\n" + "B\n\n" +
        ("==" + ("March" + " " + "01" + " " + "2024") + "==\n\n" + "A\n\n"), 2)
  {
    var x := Dated(Date(2024, 3, 1), March1);
    var y := Dated(Date(2024, 1, 15), January15);
    MdScenarioCollect(listing, x, y);
    MdScenarioSort(x, y);
    MdScenarioSections(files, x, y);
    var parts := SectionTexts(CombineMd, [y, x], files);
    ConcatPair(parts[0], parts[1]);
    EmptyLead(Concat(parts));
  }

  // ----- a run of combine_txt.py: a name without extension, and an unreadable entry

  const January2 := "02-01-2024"
  const January1 := "01-01-2024.txt"

  lemma TxtScenarioMatches()
    ensures MatchCanonical(CombineTxt, January2) == Some(Groups("02", "01", "2024"))
    ensures MatchCanonical(CombineTxt, January1) == Some(Groups("01", "01", "2024"))
  {
    FieldSlices(January2);
    FieldSlices(January1);
  }

  lemma TxtScenarioDates()
    ensures DateOf(Groups("02", "01", "2024")) == Some(Date(2024, 1, 2))
    ensures DateOf(Groups("01", "01", "2024")) == Some(Date(2024, 1, 1))
  {
    TwoDigitValue("01");
    TwoDigitValue("02");
    FourDigitValue("2024");
  }

  lemma TxtScenarioCollect(listing: seq<string>, x: Dated, y: Dated)
    requires listing == [January2, January1]
    requires x == Dated(Date(2024, 1, 2), January2) && y == Dated(Date(2024, 1, 1), January1)
    ensures Collect(CombineTxt, listing) == Collected([x, y])
  {
    TxtScenarioMatches();
    TxtScenarioDates();
    var first := listing[..1];
    assert first == [January2] && first[..0] == [];
    assert Collect(CombineTxt, first) == Collected([x]);
  }

  lemma TxtScenarioSort(x: Dated, y: Dated)
    requires x == Dated(Date(2024, 1, 2), January2) && y == Dated(Date(2024, 1, 1), January1)
    ensures Sort([x, y]) == [y, x]
  {
    assert Less(y, x) && !LessEq(x, y);
    assert [x, y][1..] == [y] && [y][1..] == [];
    assert Sort([y]) == [y];
  }

  /** `%B %d, %Y`: full month name, zero-padded day, a comma. */
  lemma TxtHeaderJanuary1(d: Datetime)
    requires d == Date(2024, 1, 1)
    ensures Header(CombineTxt, d) == "==" + ("January" + " " + "01" + ", " + "2024") + "==\n\n"
  {
    PadTwo(1, "01");
    PadYear2024();
    assert MonthNames[0] == "January";
  }

  lemma TxtHeaderJanuary2(d: Datetime)
    requires d == Date(2024, 1, 2)
    ensures Header(CombineTxt, d) == "==" + ("January" + " " + "02" + ", " + "2024") + "==\n\n"
  {
    PadTwo(2, "02");
    PadYear2024();
    assert MonthNames[0] == "January";
  }

  lemma TxtScenarioSections(files: Files, x: Dated, y: Dated)
    requires files == map[January2 := Unreadable, January1 := File("x")]
    requires x == Dated(Date(2024, 1, 2), January2) && y == Dated(Date(2024, 1, 1), January1)
    ensures SectionTexts(CombineTxt, [y, x], files) ==
      ["==" + ("January" + " " + "01" + ", " + "2024") + "==\n\n" + "x\n\n",
       "==" + ("January" + " " + "02" + ", " + "2024") + "==\n\n" + ""]
  {
    SectionOf(CombineTxt, [y, x], files, 0);
    SectionOf(CombineTxt, [y, x], files, 1);
    TxtHeaderJanuary1(y.date);
    TxtHeaderJanuary2(x.date);
    TxtScenarioBodies(files);
  }

  lemma TxtScenarioBodies(files: Files)
    requires files == map[January2 := Unreadable, January1 := File("x")]
    ensures Body(files, January1) == "x\n\n" && Body(files, January2) == ""
  {
    assert January2 != January1 by {
      assert January2[1] != January1[1];
    }
    assert files[January2] == Unreadable;
    assert "x" + "\n\n" == "x\n\n";
  }

  /**
   * The output opens with the banner and puts a comma after the day; the
   * unreadable entry leaves its header with nothing after it, and still counts.
   */
  lemma TxtScenario(listing: seq<string>, files: Files)
    requires listing == [January2, January1]
    requires files == map[January2 := Unreadable, January1 := File("x")]
    ensures CombineMain(CombineTxt, true, listing, files)
      == Written(
        "===Journal-app entries===\n\n" +
        ("==" + ("January" + " " + "01" + ", " + "2024") + "==\n\n" + "x\n\n" +
         ("==" + ("January" + " " + "02" + ", " + "2024") + "==\n\n" + "")), 2)
  {
    var x := Dated(Date(2024, 1, 2), January2);
    var y := Dated(Date(2024, 1, 1), January1);
    TxtScenarioCollect(listing, x, y);
    TxtScenarioSort(x, y);
    TxtScenarioSections(files, x, y);
    var parts := SectionTexts(CombineTxt, [y, x], files);
    ConcatPair(parts[0], parts[1]);
  }

  // ----- runs that write nothing

  const February31 := "31-02-2024.md"

  lemma February31Rejected()
    ensures Rejects(CombineMd, February31)
  {
    FieldSlices(February31);
    assert MatchCanonical(CombineMd, February31) == Some(Groups("31", "02", "2024"));
    OutOfRangeNames();
  }

  /** An impossible date anywhere in the listing means no output at all. */
  lemma RejectedScenario(listing: seq<string>, files: Files)
    requires listing == [January15, February31]
    ensures CombineMain(CombineMd, true, listing, files) == DateRejected(February31)
  {
    var first := listing[..1];
    assert first == [January15] && first[..0] == [];
    assert Collect(CombineMd, first).Collected? by {
      MdScenarioMatches();
      MdScenarioDates();
    }
    February31Rejected();
  }

  lemma MissingDirectory(listing: seq<string>, files: Files)
    ensures CombineMain(CombineMd, false, listing, files) == DirNotFound("Dir not exist: combine_files/files/journal-past")
    ensures CombineMain(CombineTxt, false, listing, files) == DirNotFound("Dir not found: {dir}")
  {
  }
}
