/**
 * The upload script's `ArchivesTextProcessor`: a cursor over the archive that keeps
 * one "left to visit" list per level, takes values from the end of each list, and
 * refills an exhausted list from the level above. The constructor, its start phases
 * and every move are proved to follow the traversal defined in `Walk`: the cursor's
 * pending slots are always a suffix of that traversal, and each move takes the next
 * one. The other members are proved against the listing, path and record functions.
 */
module Uploader {
  import opened Wrappers
  import opened PyStr
  import opened PyInt
  import opened Sorting
  import opened Layout
  import opened Lists
  import opened Walk
  import opened Bylines

  /** The document the script builds for one article file. */
  datatype UploadRecord = UploadRecord(
    articleText: string,
    articleType: string,
    articleNumber: string,
    title: string,
    subtitle: string,
    author: string,
    authorTitle: string,
    publishDate: string)

  /** How a call of the upload script ends as written: with a value, or with the
      `NameError` raised by `Logger.log`, which writes to a name `f` that neither the
      method nor the module binds. */
  datatype Outcome<+T> = Returned(value: T) | NameError

  /** The loop both `set_months_left_in_year` and `set_days_left_in_month` run over a
      listing: each name that `int()` accepts is appended as a number, the others are
      skipped. */
  method NumericEntries(names: seq<string>) returns (numbers: seq<int>)
    ensures numbers == NumericNames(names)
  {
    numbers := [];
    for i := 0 to |names|
      invariant numbers == NumericNames(names[..i])
    {
      FilterMapStep(names, ParseInt, i);
      match ParseInt(names[i]) {
        case Some(v) => numbers := numbers + [v];
        case None =>
      }
    }
    assert names[..|names|] == names;
  }

  /** The loop of `set_articles_left_in_day`: every name is appended, in order. */
  method AllEntries(names: seq<string>) returns (copy: seq<string>)
    ensures copy == names
  {
    copy := [];
    for i := 0 to |names|
      invariant copy == names[..i]
    {
      assert names[..i + 1] == names[..i] + [names[i]];
      copy := copy + [names[i]];
    }
    assert names[..|names|] == names;
  }

  /** The document built from an article file: `raw` is the file's text, `name` its
      file name and `publishDate` the stamp of its day. The first three lines carry
      the title, subtitle and byline after their `#`, `##` and `###` markers; the
      rest, joined without separators, is the text; the name's first two
      dot-separated parts are the article number and type. */
  function ArticleRecord(raw: string, name: string, publishDate: string): UploadRecord
    requires |SplitLines(raw)| >= 3 && '.' in name
  {
    var lines := SplitLines(raw);
    var byline := AuthorTitleSplit(Normalize(SliceFrom(lines[2], 4)));
    SplitHead(name, '.');
    var parts := Split(name, '.');
    UploadRecord(Strip(Join(lines[3..], "")), parts[1], parts[0],
      Normalize(SliceFrom(lines[0], 2)), Normalize(SliceFrom(lines[1], 3)),
      byline.author, byline.authorTitle, publishDate)
  }

  /** The title and subtitle are the words of their lines after the marker, joined
      by one plain space each; so they are single-spaced, have no whitespace at
      either end, and keep every visible character. */
  lemma ArticleRecordHeadings(raw: string, name: string, publishDate: string)
    requires |SplitLines(raw)| >= 3 && '.' in name
    ensures var r := ArticleRecord(raw, name, publishDate);
      var lines := SplitLines(raw);
      && r.title == Join(Words(SliceFrom(lines[0], 2)), " ")
      && r.subtitle == Join(Words(SliceFrom(lines[1], 3)), " ")
      && CleanedFrom(r.title, SliceFrom(lines[0], 2)) && CleanedFrom(r.subtitle, SliceFrom(lines[1], 3))
  {
    var lines := SplitLines(raw);
    NormalizeCleans(SliceFrom(lines[0], 2));
    NormalizeCleans(SliceFrom(lines[1], 3));
    NormalizeWords(SliceFrom(lines[0], 2));
    NormalizeWords(SliceFrom(lines[1], 3));
  }

  /** The author begins the cleaned-up byline and, when a title was recognised, the
      title follows it there. */
  lemma ArticleRecordByline(raw: string, name: string, publishDate: string)
    requires |SplitLines(raw)| >= 3 && '.' in name
    ensures var r := ArticleRecord(raw, name, publishDate);
      var byline := Normalize(SliceFrom(SplitLines(raw)[2], 4));
      && r.authorTitle in VALID_AUTHOR_TITLES
      && r.author <= byline
      && (r.authorTitle != "" ==> |r.author| > 0 && OccursAt(Upper(byline), r.authorTitle, |r.author|))
  {
    AuthorBeforeTitle(Normalize(SliceFrom(SplitLines(raw)[2], 4)));
  }

  /** The text is the lines after the third, joined without separators, with only
      the whitespace at either end taken off: it keeps every visible character in
      order, and its inner whitespace as it was. The stamp is the one of the
      article's day. */
  lemma ArticleRecordText(raw: string, name: string, publishDate: string)
    requires |SplitLines(raw)| >= 3 && '.' in name
    ensures var r := ArticleRecord(raw, name, publishDate);
      var body := Join(SplitLines(raw)[3..], "");
      && StrippedFrom(r.articleText, body)
      && NonSpace(r.articleText) == NonSpace(body)
      && (r.articleText != [] ==> !IsSpace(r.articleText[0]) && !IsSpace(r.articleText[|r.articleText| - 1]))
      && r.publishDate == publishDate
  {
    var body := Join(SplitLines(raw)[3..], "");
    StripKeepsText(body);
    StripPadded(body);
  }

  /** The article number and type, joined by a dot, begin the file name, and neither
      contains a dot. The type runs up to the second dot, or to the end of the name
      when it has only one. */
  lemma ArticleRecordName(raw: string, name: string, publishDate: string)
    requires |SplitLines(raw)| >= 3 && '.' in name
    ensures var r := ArticleRecord(raw, name, publishDate);
      && r.articleNumber + "." + r.articleType <= name
      && '.' !in r.articleNumber && '.' !in r.articleType
      && var k := r.articleNumber + "." + r.articleType; k == name || k + "." <= name
  {
    SplitHeadPrefix(name, '.');
    SplitHeadEnd(name, '.');
  }

  /** The first three lines start with the `#`, `##` and `###` markers. */
  predicate HasMarkers(lines: seq<string>)
    requires |lines| >= 3
  {
    "#" <= lines[0] && "##" <= lines[1] && "###" <= lines[2]
  }

  class ArchivesTextProcessor {
    /** The directory snapshot that stands for `os.listdir`. */
    const fs: FileSystem
    const basePath: string
    const startYear: int
    const endYear: int
    /** The listings the cursor's lists are refilled from, as functions of the date. */
    ghost const months: int -> seq<int>
    ghost const days: (int, int) -> seq<int>
    ghost const articles: (int, int, int) -> seq<string>
    /** Which directories `os.listdir` can list, as functions of the date. */
    ghost const yearListable: int -> bool
    ghost const monthListable: (int, int) -> bool
    ghost const dayListable: (int, int, int) -> bool

    var yearsLeft: seq<int>
    var currentYear: int
    var monthsLeftInYear: seq<int>
    var currentMonth: int
    var daysLeftInMonth: seq<int>
    var currentDay: int
    var articlesLeftInDay: seq<string>
    var currentArticle: Option<string>

    function Snap(): Snapshot {
      Snapshot(fs, basePath)
    }

    /** `__init__`: starts the cursor at the newest year and takes the first article.
        The script's constructor lists directories until it has a first day, so it
        needs one; it then lists that day, which may be empty of articles. The cursor
        then stands at the start of the traversal of the whole range. */
    constructor (fs0: FileSystem, basePath0: string, start: int, end: int)
      requires forall y :: start <= y < end ==> Walk.YearReadable(Snapshot(fs0, basePath0), y)
      requires DaySlots(Snapshot(fs0, basePath0), start, end) != []
      ensures fs == fs0 && basePath == basePath0 && startYear == start && endYear == end
      ensures ListingsOfSnapshot()
      ensures StartsAt(Traversal(Snapshot(fs0, basePath0), start, end))
    {
      var sn := Snapshot(fs0, basePath0);
      fs, basePath, startYear, endYear := fs0, basePath0, start, end;
      months, days, articles := MonthsOf(sn), DaysOf(sn), ArticlesOf(sn);
      yearListable, monthListable, dayListable := YearListableOf(sn), MonthListableOf(sn), DayListableOf(sn);
      new;
      RangeStart();
      StartYear();
    }

    /** The cursor stands at the start of `all`: it holds the first location, the
        pending articles are the rest, and every directory still to be listed can be;
        it holds no article, with every list consumed, exactly when `all` is empty. */
    ghost predicate StartsAt(all: seq<Location>)
      reads this
    {
      && DaysReadable(yearsLeft, currentYear, monthsLeftInYear, currentMonth, daysLeftInMonth)
      && (currentArticle.None? <==> all == [])
      && (currentArticle.None? ==>
        yearsLeft == [] && monthsLeftInYear == [] && daysLeftInMonth == [] && articlesLeftInDay == [])
      && (currentArticle.Some? ==>
        && CurrentLocation() == all[0]
        && PendingArticles(yearsLeft, currentYear, monthsLeftInYear, currentMonth,
                           daysLeftInMonth, currentDay, articlesLeftInDay) == all[1..])
    }

    /** Every year of the range is readable through the listability tests, the range
        has a pending day when the snapshot has one, and the traversal of the range is
        the one the listing functions give. */
    lemma RangeStart()
      requires ListingsOfSnapshot()
      requires forall y :: startYear <= y < endYear ==> Walk.YearReadable(Snap(), y)
      requires DaySlots(Snap(), startYear, endYear) != []
      ensures YearsReadable(YearRange(startYear, endYear))
      ensures YearRange(startYear, endYear) != []
      ensures MonthsDays(days, PopYears(months, YearRange(startYear, endYear))) != []
      ensures Traversal(Snap(), startYear, endYear)
        == DaysArticles(articles, MonthsDays(days, PopYears(months, YearRange(startYear, endYear))))
    {
      var ys := YearRange(startYear, endYear);
      assert ys == [] ==> DaySlots(Snap(), startYear, endYear) == [];
      forall y | y in ys
        ensures YearReadable(y)
      {
        YearRangeHas(startYear, endYear, y);
        assert Walk.YearReadable(Snap(), y);
      }
    }

    /** Lines 60-64 of `__init__`, then the rest: every year of the range is left, the
        newest is taken and its months are listed; the cursor ends at the start of the
        articles of the whole range. */
    method StartYear()
      requires ListingsOfSnapshot() && YearsReadable(YearRange(startYear, endYear))
      requires YearRange(startYear, endYear) != []
      requires MonthsDays(days, PopYears(months, YearRange(startYear, endYear))) != []
      modifies this`yearsLeft, this`currentYear, this`monthsLeftInYear, this`currentMonth
      modifies this`daysLeftInMonth, this`currentDay, this`articlesLeftInDay, this`currentArticle
      ensures StartsAt(DaysArticles(articles, MonthsDays(days, PopYears(months, YearRange(startYear, endYear)))))
    {
      yearsLeft := YearRange(startYear, endYear);
      ghost var ys := yearsLeft;
      var moved := MoveToNextYear();
      InitLast(ys);
      assert currentYear == ys[|ys| - 1];
      assert forall y :: y in yearsLeft ==> y in ys;
      SetMonthsLeftInYear();
      RefillMonths(months, currentYear, ys);
      StartMonth();
    }

    /** Lines 65-68 of `__init__`, then the rest: the first pending month is taken and
        its days are listed; the cursor ends at the start of the articles of every
        month pending before. */
    method StartMonth()
      requires ListingsOfSnapshot() && MonthsReadable(yearsLeft, currentYear, monthsLeftInYear)
      requires MonthsDays(days, PendingMonths(yearsLeft, currentYear, monthsLeftInYear)) != []
      modifies this`yearsLeft, this`currentYear, this`monthsLeftInYear, this`currentMonth
      modifies this`daysLeftInMonth, this`currentDay, this`articlesLeftInDay, this`currentArticle
      ensures StartsAt(DaysArticles(articles, MonthsDays(days, old(PendingMonths(yearsLeft, currentYear, monthsLeftInYear)))))
    {
      ghost var pending := PendingMonths(yearsLeft, currentYear, monthsLeftInYear);
      var moved := MoveToNextMonth();
      SetDaysLeftInMonth();
      RefillDays(days, currentYear, currentMonth, pending);
      StartDay();
    }

    /** Lines 69-74 of `__init__`: the first pending day is taken, its articles are
        listed and the first pending article is taken; the cursor ends at the start of
        the articles of every day pending before. */
    method StartDay()
      requires ListingsOfSnapshot() && DaysReadable(yearsLeft, currentYear, monthsLeftInYear, currentMonth, daysLeftInMonth)
      requires PendingDays(yearsLeft, currentYear, monthsLeftInYear, currentMonth, daysLeftInMonth) != []
      modifies this`yearsLeft, this`currentYear, this`monthsLeftInYear, this`currentMonth
      modifies this`daysLeftInMonth, this`currentDay, this`articlesLeftInDay, this`currentArticle
      ensures StartsAt(DaysArticles(articles, old(PendingDays(yearsLeft, currentYear, monthsLeftInYear, currentMonth, daysLeftInMonth))))
    {
      ghost var pending := PendingDays(yearsLeft, currentYear, monthsLeftInYear, currentMonth, daysLeftInMonth);
      var moved := MoveToNextDay();
      SetArticlesLeftInDay();
      RefillArticles(articles, currentYear, currentMonth, currentDay, pending);
      currentArticle := None;
      moved := MoveToNextArticle();
    }

    // ----- What the cursor still has to visit -----
    // These views take the list fields as arguments, so that a method states them
    // about the values its fields hold before and after it runs.

    /** The (year, month) slots not yet taken: the rest of the current year `ms`, then
        the years `ys` still left. */
    ghost function PendingMonths(ys: seq<int>, year: int, ms: seq<int>): seq<MonthSlot> {
      PopMonths(year, ms) + PopYears(months, ys)
    }

    /** The day slots not yet taken: the rest of the current month `ds`, then the days
        of every pending month. */
    ghost function PendingDays(ys: seq<int>, year: int, ms: seq<int>, month: int, ds: seq<int>): seq<DaySlot> {
      PopDays(year, month, ds) + MonthsDays(days, PendingMonths(ys, year, ms))
    }

    /** The articles not yet visited: the rest of the current day `names`, then the
        articles of every pending day. */
    ghost function PendingArticles(ys: seq<int>, year: int, ms: seq<int>, month: int, ds: seq<int>,
                                   day: int, names: seq<string>): seq<Location> {
      PopArticles(year, month, day, names) + DaysArticles(articles, PendingDays(ys, year, ms, month, ds))
    }

    function CurrentLocation(): Location
      reads this`currentYear, this`currentMonth, this`currentDay, this`currentArticle
      requires currentArticle.Some?
    {
      Location(currentYear, currentMonth, currentDay, currentArticle.value)
    }

    // ----- Which listings will succeed -----

    /** The listing functions are those of the snapshot. */
    ghost predicate ListingsOfSnapshot() {
      && months == MonthsOf(Snap()) && days == DaysOf(Snap()) && articles == ArticlesOf(Snap())
      && yearListable == YearListableOf(Snap()) && monthListable == MonthListableOf(Snap())
      && dayListable == DayListableOf(Snap())
    }

    /** The month directory and each of its day directories can be listed. */
    ghost predicate MonthReadable(year: int, month: int) {
      monthListable(year, month) && forall d :: d in days(year, month) ==> dayListable(year, month, d)
    }

    /** The year directory and every directory below it can be listed. */
    ghost predicate YearReadable(year: int) {
      yearListable(year) && forall m :: m in months(year) ==> MonthReadable(year, m)
    }

    /** Every year in `ys` can be listed, down to its day directories. */
    ghost predicate YearsReadable(ys: seq<int>) {
      forall y :: y in ys ==> YearReadable(y)
    }

    /** ... and so can every month `ms` left in the current year. */
    ghost predicate MonthsReadable(ys: seq<int>, year: int, ms: seq<int>) {
      YearsReadable(ys) && forall m :: m in ms ==> MonthReadable(year, m)
    }

    /** ... and every day `ds` left in the current month. */
    ghost predicate DaysReadable(ys: seq<int>, year: int, ms: seq<int>, month: int, ds: seq<int>) {
      MonthsReadable(ys, year, ms) && forall d :: d in ds ==> dayListable(year, month, d)
    }

    // ----- Paths -----

    /** `get_current_path(level)`, with a log call that returns: `None` for a level it
        does not know. Each level's path extends the one above it by one zero-padded
        component and a `/`, and the article path ends with the file name. */
    function GetCurrentPath(level: string): (p: Option<string>)
      reads this`currentYear, this`currentMonth, this`currentDay, this`currentArticle
      requires level == "article" ==> currentArticle.Some?
      ensures p.Some? <==> level == "year" || level == "month" || level == "day" || level == "article"
      ensures level == "year" ==> p == Some(YearDir(basePath, currentYear))
      ensures level == "month" ==> p == Some(MonthDir(basePath, currentYear, currentMonth))
      ensures level == "day" ==> p == Some(DayDir(basePath, currentYear, currentMonth, currentDay))
      ensures level == "article" ==>
        p == Some(DayDir(basePath, currentYear, currentMonth, currentDay) + currentArticle.value)
    {
      var year := basePath + ZFill(IntToStr(currentYear), 4) + "/";
      if level == "year" then Some(year)
      else if level == "month" then Some(year + ZFill(IntToStr(currentMonth), 2) + "/")
      else if level == "day" then
        Some(year + ZFill(IntToStr(currentMonth), 2) + "/" + ZFill(IntToStr(currentDay), 2) + "/")
      else if level == "article" then
        Some(year + ZFill(IntToStr(currentMonth), 2) + "/" + ZFill(IntToStr(currentDay), 2) + "/"
          + currentArticle.value)
      else None
    }

    /** `get_current_path(level)` as written: for a level it does not know, the log
        call raises `NameError` instead of returning `None`. */
    function GetCurrentPathAsWritten(level: string): (o: Outcome<string>)
      reads this`currentYear, this`currentMonth, this`currentDay, this`currentArticle
      requires level == "article" ==> currentArticle.Some?
      ensures o == NameError <==> GetCurrentPath(level).None?
      ensures o.Returned? ==> GetCurrentPath(level) == Some(o.value)
    {
      if level == "year" || level == "month" || level == "day" || level == "article" then
        Returned(GetCurrentPath(level).value)
      else
        NameError
    }

    // ----- Refilling a level from its directory -----

    /** `set_months_left_in_year`: the numeric entries of the year directory, as
        numbers, ascending. */
    method SetMonthsLeftInYear()
      requires ListingsOfSnapshot() && yearListable(currentYear)
      modifies this`monthsLeftInYear
      ensures monthsLeftInYear == months(currentYear)
    {
      var months := Entries(fs, GetCurrentPath("year").value);
      var filteredMonths := NumericEntries(months);
      monthsLeftInYear := Sort(filteredMonths, IntLe);
      assert monthsLeftInYear == Months(Snap(), currentYear);
    }

    /** `set_days_left_in_month`: the numeric entries of the month directory, as
        numbers, ascending. */
    method SetDaysLeftInMonth()
      requires ListingsOfSnapshot() && monthListable(currentYear, currentMonth)
      modifies this`daysLeftInMonth
      ensures daysLeftInMonth == days(currentYear, currentMonth)
    {
      var days := Entries(fs, GetCurrentPath("month").value);
      var filteredDays := NumericEntries(days);
      daysLeftInMonth := Sort(filteredDays, IntLe);
      assert daysLeftInMonth == Days(Snap(), currentYear, currentMonth);
    }

    /** `set_articles_left_in_day`: every entry of the day directory, sorted by name. */
    method SetArticlesLeftInDay()
      requires ListingsOfSnapshot() && dayListable(currentYear, currentMonth, currentDay)
      modifies this`articlesLeftInDay
      ensures articlesLeftInDay == articles(currentYear, currentMonth, currentDay)
    {
      var articles := Entries(fs, GetCurrentPath("day").value);
      var filteredArticles := AllEntries(articles);
      articlesLeftInDay := Sort(filteredArticles, StrLe);
      assert articlesLeftInDay == Articles(Snap(), currentYear, currentMonth, currentDay);
    }

    // ----- Moving the cursor -----

    /** `move_to_next_year`, with a log call that returns: -1 when no year is left,
        otherwise takes the last one. */
    method MoveToNextYear() returns (r: int)
      modifies this`yearsLeft, this`currentYear
      ensures r == 1 || r == -1
      ensures r == -1 <==> old(yearsLeft) == []
      ensures r == -1 ==> yearsLeft == old(yearsLeft) && currentYear == old(currentYear)
      ensures r == 1 ==> currentYear == Last(old(yearsLeft)) && yearsLeft == Init(old(yearsLeft))
    {
      if |yearsLeft| == 0 {
        return -1;
      }
      currentYear := yearsLeft[|yearsLeft| - 1];
      yearsLeft := yearsLeft[..|yearsLeft| - 1];
      return 1;
    }

    /** `move_to_next_year` as written: with no year left, `self.logger.log("done")`
        raises `NameError`, so the call never returns -1. */
    method MoveToNextYearAsWritten() returns (o: Outcome<int>)
      modifies this`yearsLeft, this`currentYear
      ensures o != Returned(-1)
      ensures o == NameError <==> old(yearsLeft) == []
      ensures o == NameError ==> yearsLeft == old(yearsLeft) && currentYear == old(currentYear)
      ensures o.Returned? ==>
        o.value == 1 && currentYear == Last(old(yearsLeft)) && yearsLeft == Init(old(yearsLeft))
    {
      if |yearsLeft| == 0 {
        return NameError;
      }
      currentYear := yearsLeft[|yearsLeft| - 1];
      yearsLeft := yearsLeft[..|yearsLeft| - 1];
      return Returned(1);
    }

    /** `move_to_next_month`: takes the next pending month, passing over years without
        months; -1, with every year and month consumed, exactly when none is pending. */
    method MoveToNextMonth() returns (r: int)
      requires ListingsOfSnapshot() && MonthsReadable(yearsLeft, currentYear, monthsLeftInYear)
      modifies this`yearsLeft, this`currentYear, this`monthsLeftInYear, this`currentMonth
      ensures r == 1 || r == -1
      ensures var before := old(PendingMonths(yearsLeft, currentYear, monthsLeftInYear));
        && (r == -1 <==> before == [])
        && (r == -1 ==> yearsLeft == [] && monthsLeftInYear == [] && currentMonth == old(currentMonth))
        && (r == 1 ==>
          && MonthSlot(currentYear, currentMonth) == before[0]
          && PendingMonths(yearsLeft, currentYear, monthsLeftInYear) == before[1..]
          && MonthReadable(currentYear, currentMonth))
      ensures MonthsReadable(yearsLeft, currentYear, monthsLeftInYear)
    {
      ghost var before := PendingMonths(yearsLeft, currentYear, monthsLeftInYear);
      while |monthsLeftInYear| == 0
        invariant PendingMonths(yearsLeft, currentYear, monthsLeftInYear) == before
        invariant MonthsReadable(yearsLeft, currentYear, monthsLeftInYear)
        modifies this`yearsLeft, this`currentYear, this`monthsLeftInYear
        decreases |yearsLeft|
      {
        var moved := NextYearMonths();
        if moved < 0 {
          return -1;
        }
      }
      ghost var ms := monthsLeftInYear;
      ghost var rest := PopYears(months, yearsLeft);
      currentMonth := monthsLeftInYear[|monthsLeftInYear| - 1];
      monthsLeftInYear := monthsLeftInYear[..|monthsLeftInYear| - 1];
      InitLast(ms);
      PopMonthsLast(currentYear, ms);
      TakeFirst(MonthSlot(currentYear, currentMonth), PopMonths(currentYear, monthsLeftInYear), rest);
      return 1;
    }

    /** One pass of `move_to_next_month`'s loop: moves to the next year and lists its
        months, leaving the pending months as they were. */
    method NextYearMonths() returns (moved: int)
      requires ListingsOfSnapshot() && MonthsReadable(yearsLeft, currentYear, monthsLeftInYear)
      requires |monthsLeftInYear| == 0
      modifies this`yearsLeft, this`currentYear, this`monthsLeftInYear
      ensures MonthsReadable(yearsLeft, currentYear, monthsLeftInYear)
      ensures moved < 0 ==>
        && old(PendingMonths(yearsLeft, currentYear, monthsLeftInYear)) == []
        && yearsLeft == [] && monthsLeftInYear == []
      ensures moved >= 0 ==>
        && PendingMonths(yearsLeft, currentYear, monthsLeftInYear) == old(PendingMonths(yearsLeft, currentYear, monthsLeftInYear))
        && |yearsLeft| < old(|yearsLeft|)
    {
      ghost var y0, ys := currentYear, yearsLeft;
      moved := MoveToNextYear();
      if moved < 0 {
        return;
      }
      InitLast(ys);
      SetMonthsLeftInYear();
      RefillMonths(months, y0, ys);
    }

    /** `move_to_next_day`: takes the next pending day, passing over months without
        days; -1, with every list above the articles consumed, exactly when none is
        pending. */
    method MoveToNextDay() returns (r: int)
      requires ListingsOfSnapshot() && DaysReadable(yearsLeft, currentYear, monthsLeftInYear, currentMonth, daysLeftInMonth)
      modifies this`yearsLeft, this`currentYear, this`monthsLeftInYear, this`currentMonth
      modifies this`daysLeftInMonth, this`currentDay
      ensures r == 1 || r == -1
      ensures var before := old(PendingDays(yearsLeft, currentYear, monthsLeftInYear, currentMonth, daysLeftInMonth));
        && (r == -1 <==> before == [])
        && (r == -1 ==>
          yearsLeft == [] && monthsLeftInYear == [] && daysLeftInMonth == [] && currentDay == old(currentDay))
        && (r == 1 ==>
          && DaySlot(currentYear, currentMonth, currentDay) == before[0]
          && PendingDays(yearsLeft, currentYear, monthsLeftInYear, currentMonth, daysLeftInMonth) == before[1..]
          && dayListable(currentYear, currentMonth, currentDay))
      ensures DaysReadable(yearsLeft, currentYear, monthsLeftInYear, currentMonth, daysLeftInMonth)
    {
      ghost var before := PendingDays(yearsLeft, currentYear, monthsLeftInYear, currentMonth, daysLeftInMonth);
      while |daysLeftInMonth| == 0
        invariant PendingDays(yearsLeft, currentYear, monthsLeftInYear, currentMonth, daysLeftInMonth) == before
        invariant DaysReadable(yearsLeft, currentYear, monthsLeftInYear, currentMonth, daysLeftInMonth)
        modifies this`yearsLeft, this`currentYear, this`monthsLeftInYear, this`currentMonth, this`daysLeftInMonth
        decreases |PendingMonths(yearsLeft, currentYear, monthsLeftInYear)|
      {
        var moved := NextMonthDays();
        if moved < 0 {
          return -1;
        }
      }
      ghost var ds := daysLeftInMonth;
      ghost var rest := MonthsDays(days, PendingMonths(yearsLeft, currentYear, monthsLeftInYear));
      currentDay := daysLeftInMonth[|daysLeftInMonth| - 1];
      daysLeftInMonth := daysLeftInMonth[..|daysLeftInMonth| - 1];
      InitLast(ds);
      PopDaysLast(currentYear, currentMonth, ds);
      TakeFirst(DaySlot(currentYear, currentMonth, currentDay), PopDays(currentYear, currentMonth, daysLeftInMonth), rest);
      return 1;
    }

    /** One pass of `move_to_next_day`'s loop: moves to the next month and lists its
        days, leaving the pending days as they were. */
    method NextMonthDays() returns (moved: int)
      requires ListingsOfSnapshot() && DaysReadable(yearsLeft, currentYear, monthsLeftInYear, currentMonth, daysLeftInMonth)
      requires |daysLeftInMonth| == 0
      modifies this`yearsLeft, this`currentYear, this`monthsLeftInYear, this`currentMonth, this`daysLeftInMonth
      ensures DaysReadable(yearsLeft, currentYear, monthsLeftInYear, currentMonth, daysLeftInMonth)
      ensures moved < 0 ==>
        && old(PendingDays(yearsLeft, currentYear, monthsLeftInYear, currentMonth, daysLeftInMonth)) == []
        && yearsLeft == [] && monthsLeftInYear == [] && daysLeftInMonth == []
      ensures moved >= 0 ==>
        && PendingDays(yearsLeft, currentYear, monthsLeftInYear, currentMonth, daysLeftInMonth)
           == old(PendingDays(yearsLeft, currentYear, monthsLeftInYear, currentMonth, daysLeftInMonth))
        && |PendingMonths(yearsLeft, currentYear, monthsLeftInYear)| < old(|PendingMonths(yearsLeft, currentYear, monthsLeftInYear)|)
    {
      ghost var y0, m0, pending := currentYear, currentMonth, PendingMonths(yearsLeft, currentYear, monthsLeftInYear);
      moved := MoveToNextMonth();
      if moved < 0 {
        return;
      }
      SetDaysLeftInMonth();
      RefillDays(days, y0, m0, pending);
    }

    /** `move_to_next_article`, with a log call that returns: takes the next pending
        article, passing over days without articles; -1, with all four lists empty,
        exactly when none is pending. */
    method MoveToNextArticle() returns (r: int)
      requires ListingsOfSnapshot() && DaysReadable(yearsLeft, currentYear, monthsLeftInYear, currentMonth, daysLeftInMonth)
      modifies this`yearsLeft, this`currentYear, this`monthsLeftInYear, this`currentMonth
      modifies this`daysLeftInMonth, this`currentDay, this`articlesLeftInDay, this`currentArticle
      ensures r == 1 || r == -1
      ensures var before := old(PendingArticles(yearsLeft, currentYear, monthsLeftInYear, currentMonth,
                                                daysLeftInMonth, currentDay, articlesLeftInDay));
        && (r == -1 <==> before == [])
        && (r == -1 ==>
          && yearsLeft == [] && monthsLeftInYear == [] && daysLeftInMonth == [] && articlesLeftInDay == []
          && currentArticle == old(currentArticle))
        && (r == 1 ==>
          && currentArticle.Some?
          && CurrentLocation() == before[0]
          && PendingArticles(yearsLeft, currentYear, monthsLeftInYear, currentMonth,
                             daysLeftInMonth, currentDay, articlesLeftInDay) == before[1..])
      ensures DaysReadable(yearsLeft, currentYear, monthsLeftInYear, currentMonth, daysLeftInMonth)
    {
      ghost var before := PendingArticles(yearsLeft, currentYear, monthsLeftInYear, currentMonth,
                                          daysLeftInMonth, currentDay, articlesLeftInDay);
      while |articlesLeftInDay| == 0
        invariant PendingArticles(yearsLeft, currentYear, monthsLeftInYear, currentMonth,
                                  daysLeftInMonth, currentDay, articlesLeftInDay) == before
        invariant DaysReadable(yearsLeft, currentYear, monthsLeftInYear, currentMonth, daysLeftInMonth)
        modifies this`yearsLeft, this`currentYear, this`monthsLeftInYear, this`currentMonth
        modifies this`daysLeftInMonth, this`currentDay, this`articlesLeftInDay
        decreases |PendingDays(yearsLeft, currentYear, monthsLeftInYear, currentMonth, daysLeftInMonth)|
      {
        var moved := NextDayArticles();
        if moved < 0 {
          return -1;
        }
      }
      PopArticle();
      return 1;
    }

    /** `move_to_next_article` as written. The script returns -1 only from the `-1`
        branch of `move_to_next_year`, passed up through `move_to_next_day` and
        `move_to_next_month` with nothing changed on the way. As written that branch
        raises `NameError`, so the script raises exactly where `MoveToNextArticle`
        returns -1, in the state it leaves: the traversal ends in `NameError`. */
    method MoveToNextArticleAsWritten() returns (o: Outcome<int>)
      requires ListingsOfSnapshot() && DaysReadable(yearsLeft, currentYear, monthsLeftInYear, currentMonth, daysLeftInMonth)
      modifies this`yearsLeft, this`currentYear, this`monthsLeftInYear, this`currentMonth
      modifies this`daysLeftInMonth, this`currentDay, this`articlesLeftInDay, this`currentArticle
      ensures o != Returned(-1)
      ensures var before := old(PendingArticles(yearsLeft, currentYear, monthsLeftInYear, currentMonth,
                                                daysLeftInMonth, currentDay, articlesLeftInDay));
        && (o == NameError <==> before == [])
        && (o.Returned? ==>
          && o.value == 1 && currentArticle.Some?
          && CurrentLocation() == before[0]
          && PendingArticles(yearsLeft, currentYear, monthsLeftInYear, currentMonth,
                             daysLeftInMonth, currentDay, articlesLeftInDay) == before[1..])
    {
      var r := MoveToNextArticle();
      if r == -1 {
        return NameError;
      }
      return Returned(r);
    }

    /** One pass of the loop in `move_to_next_article`: moves to the next pending day
        and lists its articles, which leaves the pending articles as they were; -1,
        with every list consumed, when no day is pending. */
    method NextDayArticles() returns (moved: int)
      requires ListingsOfSnapshot() && DaysReadable(yearsLeft, currentYear, monthsLeftInYear, currentMonth, daysLeftInMonth)
      requires |articlesLeftInDay| == 0
      modifies this`yearsLeft, this`currentYear, this`monthsLeftInYear, this`currentMonth
      modifies this`daysLeftInMonth, this`currentDay, this`articlesLeftInDay
      ensures DaysReadable(yearsLeft, currentYear, monthsLeftInYear, currentMonth, daysLeftInMonth)
      ensures moved < 0 ==>
        && old(PendingArticles(yearsLeft, currentYear, monthsLeftInYear, currentMonth,
                               daysLeftInMonth, currentDay, articlesLeftInDay)) == []
        && yearsLeft == [] && monthsLeftInYear == [] && daysLeftInMonth == [] && articlesLeftInDay == []
      ensures moved >= 0 ==>
        && PendingArticles(yearsLeft, currentYear, monthsLeftInYear, currentMonth,
                           daysLeftInMonth, currentDay, articlesLeftInDay)
          == old(PendingArticles(yearsLeft, currentYear, monthsLeftInYear, currentMonth,
                                 daysLeftInMonth, currentDay, articlesLeftInDay))
        && |PendingDays(yearsLeft, currentYear, monthsLeftInYear, currentMonth, daysLeftInMonth)|
          < old(|PendingDays(yearsLeft, currentYear, monthsLeftInYear, currentMonth, daysLeftInMonth)|)
    {
      ghost var ys0, y0, ms0, m0, ds0, d0, names0 :=
        yearsLeft, currentYear, monthsLeftInYear, currentMonth, daysLeftInMonth, currentDay, articlesLeftInDay;
      moved := MoveToNextDay();
      if moved < 0 {
        assert names0 == [];
        return;
      }
      SetArticlesLeftInDay();
      ArticlesRefilled(ys0, y0, ms0, m0, ds0, d0, names0,
                       yearsLeft, currentYear, monthsLeftInYear, currentMonth, daysLeftInMonth, currentDay);
    }

    /** The pop that ends `move_to_next_article`: the last name left in the day becomes
        the current article, which is the first pending location. */
    method PopArticle()
      requires articlesLeftInDay != []
      modifies this`articlesLeftInDay, this`currentArticle
      ensures var before := old(PendingArticles(yearsLeft, currentYear, monthsLeftInYear, currentMonth,
                                                daysLeftInMonth, currentDay, articlesLeftInDay));
        && currentArticle.Some? && before != []
        && CurrentLocation() == before[0]
        && PendingArticles(yearsLeft, currentYear, monthsLeftInYear, currentMonth,
                           daysLeftInMonth, currentDay, articlesLeftInDay) == before[1..]
    {
      ghost var names := articlesLeftInDay;
      ghost var rest := DaysArticles(articles, PendingDays(yearsLeft, currentYear, monthsLeftInYear, currentMonth, daysLeftInMonth));
      currentArticle := Some(articlesLeftInDay[|articlesLeftInDay| - 1]);
      articlesLeftInDay := articlesLeftInDay[..|articlesLeftInDay| - 1];
      PopArticlesLast(currentYear, currentMonth, currentDay, names);
      TakeFirst(CurrentLocation(), PopArticles(currentYear, currentMonth, currentDay, articlesLeftInDay), rest);
    }

    /** Taking the first pending day and listing its articles leaves the pending
        articles as they were. */
    lemma ArticlesRefilled(ys0: seq<int>, year0: int, ms0: seq<int>, month0: int, ds0: seq<int>, day0: int,
                           names0: seq<string>,
                           ys: seq<int>, year: int, ms: seq<int>, month: int, ds: seq<int>, day: int)
      requires |names0| == 0
      requires PendingDays(ys0, year0, ms0, month0, ds0) != []
      requires DaySlot(year, month, day) == PendingDays(ys0, year0, ms0, month0, ds0)[0]
      requires PendingDays(ys, year, ms, month, ds) == PendingDays(ys0, year0, ms0, month0, ds0)[1..]
      ensures PendingArticles(ys, year, ms, month, ds, day, articles(year, month, day))
        == PendingArticles(ys0, year0, ms0, month0, ds0, day0, names0)
    {
      assert names0 == [];
      RefillArticles(articles, year0, month0, day0, PendingDays(ys0, year0, ms0, month0, ds0));
    }

    // ----- Reading the current article -----

    /** `get_current_publish_date`: the stamp of the cursor's day at noon UTC. */
    function GetCurrentPublishDate(): (s: string)
      reads this`currentYear, this`currentMonth, this`currentDay
      ensures s == PublishDate(currentYear, currentMonth, currentDay)
    {
      ZFill(IntToStr(currentYear), 4) + "-" + ZFill(IntToStr(currentMonth), 2) + "-"
        + ZFill(IntToStr(currentDay), 2) + "T12:00:00Z"
    }

    /** `get_current_article_data`, with sanity checks that only log: the record of
        the current article file, read from `files`, the text of every file by path.
        The script fails on a file with fewer than three lines and on a name without a
        dot. The method follows the script step by step, with the byline scanned by
        the `for … break` loop of `SplitAuthorTitle`; `ArticleRecord` is the function
        that specifies it, and the lemmas about the record are stated on that function. */
    method GetCurrentArticleData(files: map<string, string>) returns (r: UploadRecord)
      requires currentArticle.Some? && GetCurrentPath("article").value in files
      requires |SplitLines(files[GetCurrentPath("article").value])| >= 3
      requires '.' in currentArticle.value
      ensures r == ArticleRecord(files[GetCurrentPath("article").value], currentArticle.value,
                                 PublishDate(currentYear, currentMonth, currentDay))
    {
      var articleRawText := files[GetCurrentPath("article").value];
      var articleLines := SplitLines(articleRawText);
      var title := Normalize(SliceFrom(articleLines[0], 2));
      var subtitle := Normalize(SliceFrom(articleLines[1], 3));
      var authorRaw := Normalize(SliceFrom(articleLines[2], 4));
      var byline := SplitAuthorTitle(authorRaw, VALID_AUTHOR_TITLES);
      var articleText := Strip(Join(articleLines[3..], ""));
      var filenameParts := Split(currentArticle.value, '.');
      SplitHead(currentArticle.value, '.');
      var articleType := filenameParts[1];
      var articleNumber := filenameParts[0];
      r := UploadRecord(articleText, articleType, articleNumber, title, subtitle,
                        byline.author, byline.authorTitle, GetCurrentPublishDate());
    }

    /** `get_current_article_data` as written: a line without its `#`, `##` or `###`
        marker is logged, and the log call raises `NameError` before any field is
        extracted. */
    method GetCurrentArticleDataAsWritten(files: map<string, string>) returns (o: Outcome<UploadRecord>)
      requires currentArticle.Some? && GetCurrentPath("article").value in files
      requires |SplitLines(files[GetCurrentPath("article").value])| >= 3
      requires '.' in currentArticle.value
      ensures o == NameError <==> !HasMarkers(SplitLines(files[GetCurrentPath("article").value]))
      ensures o.Returned? ==>
        o.value == ArticleRecord(files[GetCurrentPath("article").value], currentArticle.value,
                                 PublishDate(currentYear, currentMonth, currentDay))
    {
      var articleLines := SplitLines(files[GetCurrentPath("article").value]);
      if !HasMarkers(articleLines) {
        return NameError;
      }
      var r := GetCurrentArticleData(files);
      return Returned(r);
    }
  }
}
