# Journal file utilities, modelled in Dafny

Three small scripts turn a directory of daily journal entries into a single
dated document:

- `rename_md.py` renames entries whose name starts with four digits, a
  dash, three ASCII letters, a dash and two digits, and contains `.md`
  somewhere after them on the same line (`2024-Feb-10.md`,
  `2024-Feb-10-notes.md`, even `2024-Feb-10.md.bak`). Each is moved to
  `DD-MM-YYYY.md`, with the month number taken from a fixed,
  case-sensitive table of English month abbreviations. The first
  abbreviation missing from the table raises `KeyError` and stops the run.
- `combine_md.py` collects the entries whose name starts with `DD-MM-YYYY.md`
  (so `01-03-2024.md.bak` and `01-03-2024.mdx` too), turns each name into a
  `datetime`, sorts the `(date, name)` tuples and writes one section
  per entry: a header `==January 15 2024==`, a blank line, then the entry's
  content and a blank line.
- `combine_txt.py` does the same for names that start with `DD-MM-YYYY`
  followed by anything, with a comma after the day (`==January 15, 2024==`) and a
  banner line `===Journal-app entries===` at the top.

The project models these scripts. The directory is a value: a map from entry
names to what reading the entry yields (`Directory.Files`), with a listing
(`Directory.IsListing`) standing for the arbitrary order `os.listdir`
returns. Each script's loops are imperative methods:

- `Rename.RenameFiles` is proved equal to the recursive `Rename.RenameMain`.
- `Combine.CombineFiles`, `Combine.CollectFileDates`, `Combine.WriteOutput`
  and `Combine.WriteSection` are proved equal to `Combine.CombineMain`,
  `Combine.Collect` and the concatenation of `Combine.SectionTexts`.

The properties are then proved about those functions:

- the rename is idempotent;
- a moved entry's content arrives under its new name;
- a run touches only the entries it moves;
- the combined output does not depend on the listing order;
- every section sits where it should in the output;
- a name the renamer produces is read back by both combiners.

The two combiners share one model, parameterised by a `Combine.Variant`:

- whether `.md` must follow the date;
- whether a comma follows the day;
- the banner;
- the missing-directory message.

Modules:

- `Wrappers` holds `Option`.
- `Text` covers digits, decimal values and padding, Python's string order,
  and the concatenation of output pieces.
- `Calendar` covers `datetime` validity, comparison and month names.
- `Sorting` covers the tuple order and `list.sort`.
- `Directory` covers entries and listings.
- `Rename` models `rename_md.py`; `Combine` models both combiners.
- `Layout` says where each part sits in a written output.
- `CombineExamples` holds concrete runs.
- `Pipeline` connects the renamer to the combiners.

Behaviour worth knowing, modelled as the code has it:

- A `KeyError` at `rename_md.py:27` ends the whole run. The entries moved
  before it stay moved, and later entries are not renamed.
- A combiner writes an entry's header before it opens the entry
  (`combine_md.py:29-38`, `combine_txt.py:31-40`). When the read fails,
  that header stays in the output with nothing after it.
- A matched name whose date does not exist (`31-02-2024.md`) makes
  `datetime(...)` raise `ValueError` at `combine_md.py:20`. That happens
  before the output is opened, so the run ends with nothing written.
- `combine_txt.py:10` lacks the `f` prefix, so its message shows `{dir}`
  literally.

## Model

| member | source | states |
|---|---|---|
| Rename.MonthMapKeys | rename_md.py:8-12 | the month table holds exactly the twelve English abbreviations, case-sensitively |
| Rename.MonthMapNumber | rename_md.py:8-12 | the i-th abbreviation in calendar order maps to i + 1 written in two digits |
| Rename.MonthMapInjective | rename_md.py:8-12 | no two abbreviations map to the same month number |
| Rename.DotStarMdCorrect | rename_md.py:18 | the scan for `.*\.md` after the fixed prefix succeeds exactly when `.md` occurs at or after that point with no line break before it (`.` does not match a newline) |
| Rename.MatchOldName | rename_md.py:18-25 | `pattern.match` succeeds exactly on names of the old form (anchored at the start only); the groups are the year, the abbreviation and the day slices |
| Rename.Decide | rename_md.py:21-28 | an unmatched name is kept; a matched name with an abbreviation outside the table raises `KeyError`; otherwise the target is day-month number-year `.md`, and the target never matches the old pattern again |
| Rename.NewName | rename_md.py:28 | for a two-digit day, a two-digit month number and a four-digit year, the new name is day, dash, month number, dash, year and `.md`, each field at its fixed place |
| Rename.Move | rename_md.py:30-32 | after the move the source is gone, the target holds the source's content (replacing any entry there), and every other entry is unchanged |
| Rename.RenameLoop | rename_md.py:20-32 | the loop over the listing either completes or stops with `KeyError` on an abbreviation the table lacks |
| Rename.RenameMain | rename_md.py:14-34 | the missing-directory report is given exactly when the directory does not exist, and then nothing changes |
| Rename.RenameFiles | rename_md.py:14-34 | the loop gives the same result as the specification `RenameMain`; a missing directory reports `Dir not found: ...` and changes nothing |
| Rename.RenameTouchesOnlyMoved | rename_md.py:20-32 | a run adds no name other than the targets, and every entry that is neither moved nor a target keeps its content |
| Rename.AbortKeepsEarlierMoves | rename_md.py:20-32 | at the first unknown abbreviation the run stops with `KeyError`; the moves made before it stay and nothing later is visited |
| Rename.MovedContentArrives | rename_md.py:20-32 | a moved entry's content is found under its target name after the run, unless a later name is moved onto the same target or an earlier abbreviation stops the run |
| Rename.CompletedRunLeavesNoOldNames | rename_md.py:20-32 | after a completed run no entry carries an old-style name |
| Rename.NoOldNamesNoChange | rename_md.py:20-22 | a directory without old-style names is left exactly as it is |
| Rename.RenameIdempotent | rename_md.py:14-34 | running the renamer again on the result of a completed run, in any listing order, completes and changes nothing |
| Rename.SuffixDropped | rename_md.py:18-28 | `2024-Feb-10-notes.md` becomes `10-02-2024.md`: text between the day and `.md` is dropped |
| Rename.DayNotValidated | rename_md.py:18-28 | `2024-Feb-99.md` becomes `99-02-2024.md`: the day is not checked |
| Rename.LowerCaseMonthRejected | rename_md.py:18-27 | `[A-Za-z]{3}` admits `feb`, which the table lacks, so the name raises `KeyError` |
| Calendar.DaysInMonth | combine_md.py:20 | month lengths between 28 and 31; February has 29 days exactly in Gregorian leap years; the 30-day months are April, June, September and November |
| Calendar.MakeDatetime | combine_md.py:20 | `datetime(year, month, day)` gives an object exactly when the year is 1 to 9999, the month 1 to 12 and the day within that month's length (`Calendar.IsValid`), and the object carries those fields; otherwise it raises |
| Calendar.LeapDayRule | combine_md.py:20 | `datetime` accepts 29 February exactly in leap years; it rejects 30 February, 31 April, month 0 and month 13 |
| Calendar.BeforeIsChronological | combine_md.py:23 | the field-by-field comparison of two datetimes agrees with comparing their day numbers, in both directions |
| Text.PadDecimal | combine_md.py:28 | a zero-padded decimal has exactly the requested width, only digits, and the value printed |
| Text.PadDecimalOfValue | combine_md.py:19-28 | printing, zero-padded, the value `int()` reads from a digit string gives that digit string back |
| Text.StrLessIrreflexive | combine_md.py:23 | Python's string order: no name is below itself |
| Text.StrLessTransitive | combine_md.py:23 | Python's string order is transitive |
| Text.StrLessTotal | combine_md.py:23 | of two different names, one is below the other |
| Text.StrLessAsymmetric | combine_md.py:23 | two names are never each below the other |
| Text.StrLessFirstDifference | combine_md.py:23 | the recursive `StrLess` agrees with the usual definition of Python's string order: a proper prefix comes first, otherwise the first differing code point decides |
| Sorting.LessTransitive | combine_md.py:23 | the `(datetime, name)` tuple order is transitive |
| Sorting.LessTotal | combine_md.py:23 | two different tuples are ordered one way or the other |
| Sorting.LessIsChronological | combine_md.py:23 | `Sorting.Less`, the tuple comparison, orders by the day number first and by the name on the same day |
| Sorting.Sort | combine_md.py:23 | `file_date.sort()` gives a sorted permutation of the tuples |
| Sorting.SortedDistinctIsStrict | combine_md.py:23 | with distinct names the sorted list is strictly ascending |
| Sorting.StrictlySortedUnique | combine_md.py:23 | two strictly ascending lists with the same tuples are equal, so the sorted list does not depend on the collection order |
| Combine.MatchCanonical | combine_md.py:13-19 | the name matches exactly when it starts with `DD-MM-YYYY` (followed by `.md` for combine_md.py, by anything for combine_txt.py); the groups are digit strings that rebuild the name's first ten characters |
| Combine.DateOf | combine_md.py:19-20 | `datetime(int(year), int(month), int(day))` on the groups gives a date exactly when their values form a valid date, and that date has those values |
| Combine.MatchedNames | combine_md.py:16-18 | the matched names are exactly the listed names the pattern accepts, without repeats, and no more than the listing holds |
| Combine.MatchedNamesInListingOrder | combine_md.py:16-18 | the matched names keep the order of the listing: they are the listing with the unmatched names left out |
| Combine.CollectSpec | combine_md.py:15-21 | the first loop succeeds exactly when no listed name matches with an impossible date; otherwise it raises on such a name; on success tuple i is the i-th matched name (`Combine.MatchedNames`, whose order is the listing's) with that name's date |
| Combine.Collect | combine_md.py:15-21 | the first loop's result: when it raises, it names a listed name that matches with an impossible date; otherwise it holds no more tuples than there are listed names |
| Combine.CollectMembers | combine_md.py:15-21 | the collected tuples are exactly the directory's accepted entries with their dates, with distinct names |
| Combine.CollectStopsAtInvalid | combine_md.py:20 | once `datetime(...)` has raised, the rest of the listing does not matter |
| Combine.CollectFileDates | combine_md.py:15-21 | the first loop computes the specification `Collect` |
| Combine.HeaderIsOneLine | combine_md.py:28-29 | `Combine.DateText` is one line of fixed shape (month name, day digits, separator, year digits); `Combine.Header` frames it with `==` and ends it with a blank line |
| Combine.BodyShape | combine_md.py:31-38 | what follows a header (`Combine.Section`): empty exactly when `Combine.ReadFile` fails, otherwise the content and then `\n\n` |
| Combine.SectionOf | combine_md.py:26-35 | section i of the output is the header of the i-th tuple, followed by the content and a blank line, or by nothing when the read fails |
| Combine.WriteSection | combine_md.py:27-38 | one iteration appends the header, then the content and `\n\n` only if the read succeeded |
| Combine.WriteOutput | combine_txt.py:25-40 | the second loop writes the banner, then the section of every tuple in sorted order |
| Combine.CombineFiles | combine_md.py:5-40 | `main()` gives the same result as the specification `CombineMain`; a missing directory reports its message and writes nothing |
| Combine.CombineMain | combine_md.py:5-40 | `main()`: the missing-directory message exactly when the directory is absent; a raised `ValueError` names a listed, rejected name; a written output starts with the banner and reports at most one entry per listed name |
| Combine.CombineOutputShape | combine_md.py:15-40 | an output is written exactly when no entry has an impossible date; it is the banner and one section per accepted entry, in strictly ascending (date, name) order; the reported count is the number of matched names, failed reads included |
| Combine.CombineIndependentOfListingOrder | combine_md.py:16-23 | two listings of the same directory both raise, or both give the same text and count |
| Combine.NothingMatchedWritesBanner | combine_txt.py:25-26 | with no matching name, only the banner is written (nothing for combine_md.py) and the count is 0 |
| Combine.DateEchoesName | combine_md.py:19-20 | the accepted date's day and year, zero-padded, are the name's digits, and its month is the value of the month digits |
| Combine.HeaderEchoesName | combine_md.py:28-29 | the header is the full English month name of the name's month digits, then the day and year digits exactly as written in the name (with the comma for combine_txt.py) |
| Layout.HeaderAt | combine_md.py:26-29 | each section of the output starts with the header of its tuple |
| Layout.BodyAfterHeader | combine_md.py:26-38 | whatever the read gives, the text right after a section's header is that entry's body (`Combine.Body`) |
| Layout.ContentAfterHeader | combine_md.py:31-35 | when the entry can be read, its content and a blank line follow its header directly |
| Layout.OrphanedHeader | combine_md.py:31-38 | when an entry that is not last cannot be read, nothing is written between its header and the next section, which starts right there with its own header |
| Layout.OrphanedLastHeader | combine_txt.py:33-40 | when the last entry cannot be read, the output ends with its header |
| CombineExamples.SuffixRules | combine_md.py:13 | combine_md.py wants `.md` right after the date; combine_txt.py accepts any tail, none included; both refuse a one-digit day and the old name form |
| CombineExamples.LeapDayNames | combine_md.py:19-20 | `29-02-2024` and `29-02-2000` give valid dates |
| CombineExamples.CommonYearLeapDayNames | combine_md.py:19-20 | `29-02-2023` and `29-02-1900` raise `ValueError` |
| CombineExamples.OutOfRangeNames | combine_md.py:19-20 | day 31 of February, day 00, month 13 and year 0000 raise `ValueError` |
| CombineExamples.February31Rejected | combine_md.py:17-20 | `31-02-2024.md` matches the pattern but its date does not exist |
| CombineExamples.MdScenario | combine_md.py:5-40 | two entries listed out of date order are written January first, each header followed by its content and a blank line, count 2 |
| CombineExamples.TxtScenario | combine_txt.py:5-41 | the banner opens the output; a name without extension is taken; an unreadable entry leaves its header with nothing after it and still counts |
| CombineExamples.RejectedScenario | combine_md.py:16-21 | a listing holding `31-02-2024.md` ends the run with nothing written |
| CombineExamples.MissingDirectory | combine_txt.py:9-11 | the two missing-directory messages, the second with `{dir}` shown literally |
| Pipeline.MonthNumbersInRange | rename_md.py:8-12 | every month number in the table is two digits worth 1 to 12 |
| Pipeline.RenamedNameParsesBack | rename_md.py:28 | a name the renamer produces matches both combiner patterns, and the groups read back are the old name's day, month number and year |
| Pipeline.UncheckedDayStopsCombiner | rename_md.py:18-28 | the renamer turns `2024-Feb-99.md` into `99-02-2024.md`, which both combiners refuse with `ValueError` |

## Left out

- `main.py` and `main2.py`: they configure an external multi-agent chat
  library and remote language models, and contain no logic of their own.
- The file system itself: paths, `os.path.join` and `shutil.move` across
  devices are not modelled. The directory is a map, and a read either
  yields the content or fails (`Directory.Entry`).
- Rename.Move: the target is always replaced. When the target is an
  existing sub-directory, `shutil.move` instead moves the entry inside it.
  Entries are not typed as files or directories in this model.
- `os.path.exists` (rename_md.py) and `os.path.isdir` (the combiners) are
  both a boolean parameter. A path that exists but is not a directory is
  not distinguished.
- Opening the output file can fail, and that failure is not modelled.
  The output is returned as a text rather than written to
  `combine_files/combine/journal-past.md` or `combine/journal-app.txt`.
- Console output other than the missing-directory messages and the reported
  count is not modelled. That covers `Completed`, the per-file read errors
  and the final `combine ... into ...` line's wording.
- `\d` and `[A-Za-z]` are restricted to ASCII characters. Python's `\d`
  also matches other Unicode decimal digits, which `int()` accepts too.
- Sorting.Sort: `list.sort` is specified by an insertion sort. Its result
  is the same list, because the tuple order is a strict total order on
  distinct names (`Sorting.StrictlySortedUnique`). Stability and the
  algorithm itself are not modelled.
- `%B` is modelled with English month names, as the C locale gives.
  `%Y` is modelled as four zero-padded digits. Some platforms print years
  below 1000 without padding.
- Strings are sequences of code points. Encoding and decoding with UTF-8
  is outside the model: an undecodable entry is an `Unreadable` entry.
