/**
 * rename_md.py: every entry whose name starts with four digits, a dash, three
 * ASCII letters, a dash and two digits, and holds `.md` somewhere after them
 * on the same line (`2024-Feb-10.md`, `2024-Feb-10-notes.md`,
 * `2024-Feb-10.md.bak`), is moved to `DD-MM-YYYY.md` in the same directory.
 * The month number comes from a case-sensitive table of English
 * abbreviations; the first abbreviation missing from it raises `KeyError`,
 * which ends the run, so later entries are never moved.
 */
module Rename {
  import opened Wrappers
  import opened Text
  import opened Directory

  const JournalDir := "combine_files/files/journal-past"

  /** `month_map`. */
  const MonthMap: map<string, string> := map[
    "Jan" := "01", "Feb" := "02", "Mar" := "03", "Apr" := "04", "May" := "05",
    "Jun" := "06", "Jul" := "07", "Aug" := "08", "Sep" := "09", "Oct" := "10",
    "Nov" := "11", "Dec" := "12"]

  /** The English month abbreviations in calendar order. */
  const Abbreviations: seq<string> :=
    ["Jan", "Feb", "Mar", "Apr", "May", "Jun", "Jul", "Aug", "Sep", "Oct", "Nov", "Dec"]

  /** The table holds exactly the twelve abbreviations, case-sensitively. */
  lemma MonthMapKeys()
    ensures forall a :: a in MonthMap <==> a in Abbreviations
  {
    assert MonthMap.Keys == {"Jan", "Feb", "Mar", "Apr", "May", "Jun", "Jul", "Aug", "Sep", "Oct", "Nov", "Dec"};
  }

  /** The i-th abbreviation (from 0) maps to i + 1 written in two digits. */
  lemma MonthMapNumber(i: int)
    requires 0 <= i < 12
    ensures MonthMap[Abbreviations[i]] == PadDecimal(i + 1, 2)
  {
    var p := PadDecimal(i + 1, 2);
    assert p == [DigitChar((i + 1) / 10), DigitChar((i + 1) % 10)];
    if i < 9 {
      assert p == ['0', DigitChar(i + 1)];
      SingleDigitMonths(i);
    } else {
      assert p == ['1', DigitChar(i - 9)];
    }
  }

  lemma SingleDigitMonths(i: int)
    requires 0 <= i < 9
    ensures MonthMap[Abbreviations[i]] == ['0', DigitChar(i + 1)]
  {
  }

  /** No two abbreviations share a month number. */
  lemma MonthMapInjective()
    ensures forall a, b :: a in MonthMap && b in MonthMap && MonthMap[a] == MonthMap[b] ==> a == b
  {
  }

  // ----- the pattern (\d{4})-([A-Za-z]{3})-(\d{2}).*\.md, anchored at the start only

  /** The fixed-width part `(\d{4})-([A-Za-z]{3})-(\d{2})`, eleven characters. */
  predicate OldPrefix(name: string)
  {
    |name| >= 11 &&
    IsDigit(name[0]) && IsDigit(name[1]) && IsDigit(name[2]) && IsDigit(name[3]) && name[4] == '-' &&
    IsAsciiLetter(name[5]) && IsAsciiLetter(name[6]) && IsAsciiLetter(name[7]) && name[8] == '-' &&
    IsDigit(name[9]) && IsDigit(name[10])
  }

  predicate MdAt(s: string, k: int)
  {
    0 <= k && k + 3 <= |s| && s[k] == '.' && s[k + 1] == 'm' && s[k + 2] == 'd'
  }

  /** `.` does not match a line break. */
  predicate NoLineBreak(s: string, lo: int, hi: int)
    requires 0 <= lo <= hi <= |s|
  {
    forall j :: lo <= j < hi ==> s[j] != '\n'
  }

  /** The whole pattern: `.*\.md` finds `.md` somewhere after the prefix, before any line break. */
  ghost predicate MatchesOldPattern(name: string)
  {
    OldPrefix(name) && exists k :: 11 <= k && MdAt(name, k) && NoLineBreak(name, 11, k)
  }

  /** Does `.*\.md` match `s` at position `k`? A left-to-right scan. */
  function DotStarMd(s: string, k: nat): bool
    requires k <= |s|
    decreases |s| - k
  {
    if k + 3 > |s| then false
    else if MdAt(s, k) then true
    else if s[k] == '\n' then false
    else DotStarMd(s, k + 1)
  }

  /** The scan succeeds exactly when `.md` occurs at or after `k` with no line break before it. */
  lemma {:induction false} DotStarMdCorrect(s: string, k: nat)
    requires k <= |s|
    ensures DotStarMd(s, k) <==> exists j :: k <= j && MdAt(s, j) && NoLineBreak(s, k, j)
    decreases |s| - k
  {
    if k + 3 > |s| {
    } else if MdAt(s, k) {
      assert NoLineBreak(s, k, k);
    } else if s[k] == '\n' {
    } else {
      DotStarMdCorrect(s, k + 1);
      if j :| k <= j && MdAt(s, j) && NoLineBreak(s, k, j) {
        assert k + 1 <= j && NoLineBreak(s, k + 1, j);
      }
      if j :| k + 1 <= j && MdAt(s, j) && NoLineBreak(s, k + 1, j) {
        assert NoLineBreak(s, k, j);
      }
    }
  }

  /** The three groups of a match: year, month abbreviation, day. */
  datatype OldGroups = OldGroups(year: string, month: string, day: string)

  /** `pattern.match(file_name)`. */
  function MatchOldName(name: string): (r: Option<OldGroups>)
    ensures r.Some? <==> MatchesOldPattern(name)
    ensures r.Some? ==> r.value == OldGroups(name[..4], name[5..8], name[9..11])
  {
    if OldPrefix(name) then
      DotStarMdCorrect(name, 11);
      if DotStarMd(name, 11) then Some(OldGroups(name[..4], name[5..8], name[9..11])) else None
    else None
  }

  /** `f"{day}-{month_num}-{year}.md"`. */
  function NewName(g: OldGroups, monthNum: string): (r: string)
    ensures |g.day| == 2 && |monthNum| == 2 && |g.year| == 4 ==>
      |r| == 13 && r[..2] == g.day && r[2] == '-' && r[3..5] == monthNum && r[5] == '-' &&
      r[6..10] == g.year && r[10..] == ".md"
  {
    g.day + "-" + monthNum + "-" + g.year + ".md"
  }

  /** What the loop body does with one listed name. */
  datatype Decision =
    | Keep
    | MoveTo(target: string)
    /** `month_map[month]` raises `KeyError`. */
    | UnknownMonth(abbreviation: string)

  function Decide(name: string): (d: Decision)
    ensures d.Keep? <==> !MatchesOldPattern(name)
    ensures d.UnknownMonth? ==> MatchesOldPattern(name) && d.abbreviation == name[5..8] && d.abbreviation !in MonthMap
    ensures d.MoveTo? ==>
      name[5..8] in MonthMap &&
      d.target == name[9..11] + "-" + MonthMap[name[5..8]] + "-" + name[..4] + ".md" &&
      !MatchesOldPattern(d.target)
  {
    match MatchOldName(name)
    case None => Keep
    case Some(g) =>
      if g.month in MonthMap then
        var target := NewName(g, MonthMap[g.month]);
        assert target[2] == '-';
        MoveTo(target)
      else UnknownMonth(g.month)
  }

  /** `shutil.move` within the directory: the target, if present, is replaced. */
  function Move(files: Files, source: string, target: string): (r: Files)
    requires source in files
    ensures r.Keys == files.Keys - {source} + {target}
    ensures r[target] == files[source]
    ensures forall n :: n in files && n != source && n != target ==> r[n] == files[n]
  {
    (files - {source})[target := files[source]]
  }

  datatype Status =
    | Completed
    | DirNotFound(message: string)
    /** The run stopped at an abbreviation missing from the table. */
    | KeyError(abbreviation: string)

  datatype RenameResult = RenameResult(status: Status, files: Files)

  /** The names the loop visits are all present (they were listed and are only ever moved away once). */
  predicate Visitable(listing: seq<string>, files: Files)
  {
    Distinct(listing) && forall n :: n in listing ==> n in files
  }

  /** The rename loop over `listing`, from the first name to the last. */
  function RenameLoop(listing: seq<string>, files: Files): (r: RenameResult)
    requires Visitable(listing, files)
    ensures r.status.Completed? || r.status.KeyError?
    ensures r.status.KeyError? ==> r.status.abbreviation !in MonthMap
    decreases |listing|
  {
    if listing == [] then RenameResult(Completed, files)
    else
      var rest := listing[1..];
      match Decide(listing[0])
      case Keep => RenameLoop(rest, files)
      case UnknownMonth(m) => RenameResult(KeyError(m), files)
      case MoveTo(target) =>
        assert forall n :: n in rest ==> n != listing[0];
        RenameLoop(rest, Move(files, listing[0], target))
  }

  /** `main()` of rename_md.py. */
  function RenameMain(dirExists: bool, listing: seq<string>, files: Files): (r: RenameResult)
    requires Visitable(listing, files)
    ensures !dirExists <==> r.status.DirNotFound?
    ensures !dirExists ==> r.files == files
  {
    if !dirExists then RenameResult(DirNotFound("Dir not found: " + JournalDir), files)
    else RenameLoop(listing, files)
  }

  /** The loop of rename_md.py, moving one entry at a time. */
  method RenameFiles(dirExists: bool, listing: seq<string>, files: Files) returns (result: RenameResult)
    requires Visitable(listing, files)
    ensures result == RenameMain(dirExists, listing, files)
    ensures !dirExists ==> result.files == files
  {
    if !dirExists {
      return RenameResult(DirNotFound("Dir not found: " + JournalDir), files);
    }
    var dir := files;
    var i := 0;
    while i < |listing|
      invariant 0 <= i <= |listing|
      invariant Visitable(listing[i..], dir)
      invariant RenameLoop(listing, files) == RenameLoop(listing[i..], dir)
    {
      var name := listing[i];
      assert listing[i..][1..] == listing[i + 1..];
      match Decide(name) {
        case Keep =>
        case UnknownMonth(m) =>
          return RenameResult(KeyError(m), dir);
        case MoveTo(target) =>
          dir := Move(dir, name, target);
      }
      i := i + 1;
    }
    return RenameResult(Completed, dir);
  }

  // ----- properties of a run

  /** The names the loop moves entries to. */
  function Targets(listing: seq<string>): set<string>
    decreases |listing|
  {
    if listing == [] then {}
    else
      var here := if Decide(listing[0]).MoveTo? then {Decide(listing[0]).target} else {};
      here + Targets(listing[1..])
  }

  /**
   * A run touches nothing but the entries it moves and the names it moves them
   * to: every entry that is not moved away and is not a target keeps its
   * content, and no other name appears.
   */
  lemma {:induction false} RenameTouchesOnlyMoved(listing: seq<string>, files: Files)
    requires Visitable(listing, files)
    ensures forall n :: n in RenameLoop(listing, files).files ==> n in files || n in Targets(listing)
    ensures forall n :: n in files && !Decide(n).MoveTo? && n !in Targets(listing) ==>
      n in RenameLoop(listing, files).files && RenameLoop(listing, files).files[n] == files[n]
    decreases |listing|
  {
    if listing != [] {
      var rest := listing[1..];
      assert forall n :: n in rest ==> n != listing[0];
      match Decide(listing[0]) {
        case Keep =>
          RenameTouchesOnlyMoved(rest, files);
        case UnknownMonth(m) =>
        case MoveTo(target) =>
          RenameTouchesOnlyMoved(rest, Move(files, listing[0], target));
      }
    }
  }

  /** Every target comes from some listed name the loop moves. */
  lemma {:induction false} TargetsFromListing(listing: seq<string>, t: string)
    requires t in Targets(listing)
    ensures exists j :: 0 <= j < |listing| && Decide(listing[j]) == MoveTo(t)
    decreases |listing|
  {
    if !(Decide(listing[0]).MoveTo? && Decide(listing[0]).target == t) {
      TargetsFromListing(listing[1..], t);
      var j :| 0 <= j < |listing[1..]| && Decide(listing[1..][j]) == MoveTo(t);
      assert listing[j + 1] == listing[1..][j];
    }
  }

  /**
   * A moved entry's content arrives at its target and stays there, unless a
   * later name is moved onto the same target or an earlier one stops the run.
   */
  lemma {:induction false} MovedContentArrives(listing: seq<string>, files: Files, i: nat, t: string)
    requires Visitable(listing, files)
    requires i < |listing| && Decide(listing[i]) == MoveTo(t)
    requires forall j :: 0 <= j < i ==> !Decide(listing[j]).UnknownMonth?
    requires forall j :: i < j < |listing| ==> Decide(listing[j]) != MoveTo(t)
    ensures t in RenameLoop(listing, files).files && RenameLoop(listing, files).files[t] == files[listing[i]]
    decreases i
  {
    if i == 0 {
      FirstMoveArrives(listing, files, t);
    } else {
      var rest := listing[1..];
      assert forall n :: n in rest ==> n != listing[0];
      assert forall j :: i - 1 < j < |rest| ==> rest[j] == listing[j + 1];
      assert forall j :: 0 <= j < i - 1 ==> rest[j] == listing[j + 1];
      assert rest[i - 1] == listing[i];
      match Decide(listing[0]) {
        case Keep =>
          MovedContentArrives(rest, files, i - 1, t);
        case MoveTo(t0) =>
          assert listing[i] != t0 by { assert Decide(t0).Keep?; }
          MovedContentArrives(rest, Move(files, listing[0], t0), i - 1, t);
      }
    }
  }

  /** The first name's content reaches its target, and no later move replaces it. */
  lemma FirstMoveArrives(listing: seq<string>, files: Files, t: string)
    requires Visitable(listing, files)
    requires |listing| > 0 && Decide(listing[0]) == MoveTo(t)
    requires forall j :: 0 < j < |listing| ==> Decide(listing[j]) != MoveTo(t)
    ensures t in RenameLoop(listing, files).files && RenameLoop(listing, files).files[t] == files[listing[0]]
  {
    var rest := listing[1..];
    assert forall n :: n in rest ==> n != listing[0];
    assert Decide(t).Keep?;
    if t in Targets(rest) {
      TargetsFromListing(rest, t);
      assert false;
    }
    RenameTouchesOnlyMoved(rest, Move(files, listing[0], t));
  }

  /**
   * An abbreviation missing from the table stops the run with `KeyError`; the
   * entries moved before it stay moved and nothing after it is visited.
   */
  lemma {:induction false} AbortKeepsEarlierMoves(listing: seq<string>, files: Files, i: nat)
    requires Visitable(listing, files)
    requires i < |listing| && Decide(listing[i]).UnknownMonth?
    requires forall j :: 0 <= j < i ==> !Decide(listing[j]).UnknownMonth?
    ensures Visitable(listing[..i], files)
    ensures RenameLoop(listing, files) == RenameResult(KeyError(listing[i][5..8]), RenameLoop(listing[..i], files).files)
    decreases i
  {
    if i > 0 {
      var rest := listing[1..];
      assert listing[..i][1..] == rest[..i - 1];
      assert forall n :: n in rest ==> n != listing[0];
      assert forall j :: 0 <= j < i - 1 ==> rest[j] == listing[j + 1];
      match Decide(listing[0]) {
        case Keep =>
          AbortKeepsEarlierMoves(rest, files, i - 1);
        case MoveTo(target) =>
          AbortKeepsEarlierMoves(rest, Move(files, listing[0], target), i - 1);
      }
    }
  }

  /** After a completed run no entry carries an old-style name any more. */
  lemma {:induction false} CompletedRunLeavesNoOldNames(listing: seq<string>, files: Files)
    requires Visitable(listing, files)
    requires forall n :: n in files && MatchesOldPattern(n) ==> n in listing
    ensures RenameLoop(listing, files).status.Completed? ==>
      forall n :: n in RenameLoop(listing, files).files ==> !MatchesOldPattern(n)
    decreases |listing|
  {
    if listing != [] {
      var rest := listing[1..];
      assert forall n :: n in rest ==> n != listing[0];
      assert forall n :: n in listing && n != listing[0] ==> n in rest;
      match Decide(listing[0]) {
        case Keep =>
          CompletedRunLeavesNoOldNames(rest, files);
        case UnknownMonth(m) =>
        case MoveTo(target) =>
          CompletedRunLeavesNoOldNames(rest, Move(files, listing[0], target));
      }
    }
  }

  /** A directory without old-style names is left exactly as it is. */
  lemma {:induction false} NoOldNamesNoChange(listing: seq<string>, files: Files)
    requires Visitable(listing, files)
    requires forall n :: n in files ==> !MatchesOldPattern(n)
    ensures RenameLoop(listing, files) == RenameResult(Completed, files)
    decreases |listing|
  {
    if listing != [] {
      assert listing[0] in files;
      NoOldNamesNoChange(listing[1..], files);
    }
  }

  /**
   * Idempotence: once a run has completed, running the renamer again, over
   * any listing of the resulting directory, completes and changes nothing.
   */
  lemma RenameIdempotent(listing: seq<string>, files: Files, relisting: seq<string>)
    requires IsListing(listing, files)
    requires RenameMain(true, listing, files).status.Completed?
    requires IsListing(relisting, RenameMain(true, listing, files).files)
    ensures var once := RenameMain(true, listing, files).files;
      RenameMain(true, relisting, once) == RenameResult(Completed, once)
  {
    CompletedRunLeavesNoOldNames(listing, files);
    NoOldNamesNoChange(relisting, RenameMain(true, listing, files).files);
  }

  /** The slices the pattern's groups take, character by character. */
  lemma OldFieldSlices(name: string)
    requires |name| >= 11
    ensures name[..4] == [name[0], name[1], name[2], name[3]]
    ensures name[5..8] == [name[5], name[6], name[7]] && name[9..11] == [name[9], name[10]]
  {
  }

  /**
   * The text between the day and `.md` is dropped: `2024-Feb-10-notes.md` becomes `10-02-2024.md`.
   * The name is a parameter pinned by its requires only to keep the proof cheap.
   */
  lemma SuffixDropped(notes: string)
    requires notes == "2024-Feb-10-notes.md"
    ensures Decide(notes) == MoveTo("10-02-2024.md")
  {
    NotesScan(notes);
    OldFieldSlices(notes);
    assert OldPrefix(notes);
    assert MatchOldName(notes) == Some(OldGroups("2024", "Feb", "10"));
  }

  /** The scan passes over `-notes` to the `.md` at position 17. */
  lemma NotesScan(notes: string)
    requires notes == "2024-Feb-10-notes.md"
    ensures DotStarMd(notes, 11)
  {
    assert MdAt(notes, 17);
    assert DotStarMd(notes, 16) by { assert !MdAt(notes, 16) && notes[16] != '\n'; }
    assert DotStarMd(notes, 15) by { assert !MdAt(notes, 15) && notes[15] != '\n'; }
    assert DotStarMd(notes, 14) by { assert !MdAt(notes, 14) && notes[14] != '\n'; }
    assert DotStarMd(notes, 13) by { assert !MdAt(notes, 13) && notes[13] != '\n'; }
    assert DotStarMd(notes, 12) by { assert !MdAt(notes, 12) && notes[12] != '\n'; }
    assert !MdAt(notes, 11) && notes[11] != '\n';
  }

  /** The day is not validated: `2024-Feb-99.md` becomes `99-02-2024.md`. */
  lemma DayNotValidated()
    ensures Decide("2024-Feb-99.md") == MoveTo("99-02-2024.md")
  {
    var name := "2024-Feb-99.md";
    assert MdAt(name, 11) && DotStarMd(name, 11);
    OldFieldSlices(name);
    assert MatchOldName(name) == Some(OldGroups("2024", "Feb", "99"));
  }

  /** `[A-Za-z]{3}` admits `feb`, which the case-sensitive table lacks. */
  lemma LowerCaseMonthRejected()
    ensures Decide("2024-feb-10.md") == UnknownMonth("feb")
  {
    var name := "2024-feb-10.md";
    assert MdAt(name, 11) && NoLineBreak(name, 11, 11);
    OldFieldSlices(name);
  }
}
