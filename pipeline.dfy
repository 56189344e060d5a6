/**
 * The two stages together: rename_md.py produces the names that
 * combine_md.py and combine_txt.py read back.
 */
module Pipeline {
  import opened Wrappers
  import opened Text
  import opened Rename
  import opened Combine

  /** Every month number in the table is two digits worth 1 to 12. */
  lemma MonthNumbersInRange(a: string)
    requires a in MonthMap
    ensures |MonthMap[a]| == 2 && AllDigits(MonthMap[a])
    ensures 1 <= DecimalValue(MonthMap[a]) <= 12
  {
    MonthMapKeys();
    var i :| 0 <= i < 12 && Abbreviations[i] == a;
    MonthMapNumber(i);
  }

  /**
   * A name the renamer produces matches both combiner patterns, and the
   * groups read back are the day, the month number and the year of the old
   * name; the month number is a real month.
   */
  lemma RenamedNameParsesBack(name: string, target: string)
    requires Decide(name) == MoveTo(target)
    ensures Matches(CombineMd, target) && Matches(CombineTxt, target)
    ensures MatchCanonical(CombineMd, target) == Some(Groups(name[9..11], MonthMap[name[5..8]], name[..4]))
    ensures MatchCanonical(CombineTxt, target) == MatchCanonical(CombineMd, target)
    ensures 1 <= DecimalValue(MonthMap[name[5..8]]) <= 12
  {
    var day, month, year := name[9..11], MonthMap[name[5..8]], name[..4];
    MonthNumbersInRange(name[5..8]);
    assert target == day + "-" + month + "-" + year + ".md";
    assert target[..2] == day && target[3..5] == month && target[6..10] == year && target[10..13] == ".md";
  }

  /**
   * The renamer does not check the day, so it can produce a name whose date
   * does not exist; either combiner then stops on it without writing.
   * The target is a parameter pinned by its requires only to keep the proof cheap.
   */
  lemma UncheckedDayStopsCombiner(target: string)
    requires target == "99-02-2024.md"
    ensures Decide("2024-Feb-99.md") == MoveTo(target)
    ensures Rejects(CombineMd, target) && Rejects(CombineTxt, target)
  {
    DayNotValidated();
    assert target[..2] == "99" && target[3..5] == "02" && target[6..10] == "2024" && target[10..13] == ".md";
    assert MatchCanonical(CombineMd, target) == MatchCanonical(CombineTxt, target) == Some(Groups("99", "02", "2024"));
    NoDayNinetyNine();
  }

  lemma NoDayNinetyNine()
    ensures DateOf(Groups("99", "02", "2024")).None?
  {
    TwoDigitValue("99");
    TwoDigitValue("02");
    FourDigitValue("2024");
  }
}
