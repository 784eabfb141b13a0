/**
 * What the upload script's cursor visits: every article of every day directory of
 * every month of every year in `[startYear, endYear)`, newest year first, each level
 * consumed from the end of its ascending list. Defined here as functions of the
 * archive snapshot; the cursor class is proved to follow them.
 */
module Walk {
  import opened Wrappers
  import opened PyStr
  import opened PyInt
  import opened Sorting
  import opened Layout
  import opened Lists

  /** The archive the cursor reads: its directory snapshot and base path. */
  datatype Snapshot = Snapshot(fs: FileSystem, base: string)

  datatype MonthSlot = MonthSlot(year: int, month: int)
  datatype DaySlot = DaySlot(year: int, month: int, day: int)
  /** One article file: its date and its file name. */
  datatype Location = Location(year: int, month: int, day: int, name: string)

  /** The names `int()` accepts, converted, in listing order; the others are dropped. */
  function NumericNames(names: seq<string>): seq<int> {
    FilterMap(names, ParseInt)
  }

  /** The months of a year: the numeric entries of its directory, sorted. */
  function Months(sn: Snapshot, year: int): seq<int> {
    Sort(NumericNames(Entries(sn.fs, YearDir(sn.base, year))), IntLe)
  }

  /** The days of a month: the numeric entries of its directory, sorted. */
  function Days(sn: Snapshot, year: int, month: int): seq<int> {
    Sort(NumericNames(Entries(sn.fs, MonthDir(sn.base, year, month))), IntLe)
  }

  /** The articles of a day: every entry of its directory, sorted by name. */
  function Articles(sn: Snapshot, year: int, month: int, day: int): seq<string> {
    Sort(Entries(sn.fs, DayDir(sn.base, year, month, day)), StrLe)
  }

  /** Whether `os.listdir` succeeds on each level's directory, as functions of the date. */
  function YearListableOf(sn: Snapshot): int -> bool {
    y => Listable(sn.fs, YearDir(sn.base, y))
  }
  function MonthListableOf(sn: Snapshot): (int, int) -> bool {
    (y, m) => Listable(sn.fs, MonthDir(sn.base, y, m))
  }
  function DayListableOf(sn: Snapshot): (int, int, int) -> bool {
    (y, m, d) => Listable(sn.fs, DayDir(sn.base, y, m, d))
  }
  function MonthsOf(sn: Snapshot): int -> seq<int> {
    y => Months(sn, y)
  }

  function DaysOf(sn: Snapshot): (int, int) -> seq<int> {
    (y, m) => Days(sn, y, m)
  }

  function ArticlesOf(sn: Snapshot): (int, int, int) -> seq<string> {
    (y, m, d) => Articles(sn, y, m, d)
  }

  /** Listing the year directory, each of its month directories and each of their
      day directories does not fail. */
  predicate YearReadable(sn: Snapshot, year: int) {
    && Listable(sn.fs, YearDir(sn.base, year))
    && forall m :: m in Months(sn, year) ==>
         && Listable(sn.fs, MonthDir(sn.base, year, m))
         && forall d :: d in Days(sn, year, m) ==> Listable(sn.fs, DayDir(sn.base, year, m, d))
  }

  // ----- The order in which `pop()` consumes each level -----

  /** The months `ms` of `year` in the order `pop()` takes them: last first. */
  function PopMonths(year: int, ms: seq<int>): seq<MonthSlot>
    decreases |ms|
  {
    if ms == [] then [] else [MonthSlot(year, Last(ms))] + PopMonths(year, Init(ms))
  }

  /** The months of the years `ys`, taking years with `pop()`. */
  function PopYears(months: int -> seq<int>, ys: seq<int>): seq<MonthSlot>
    decreases |ys|
  {
    if ys == [] then [] else PopMonths(Last(ys), months(Last(ys))) + PopYears(months, Init(ys))
  }

  /** One `pop()` from a year's months. */
  lemma PopMonthsLast(year: int, ms: seq<int>)
    requires ms != []
    ensures PopMonths(year, ms) == [MonthSlot(year, Last(ms))] + PopMonths(year, Init(ms))
  {
  }

  /** Refilling an exhausted year from the next year left changes nothing pending. */
  lemma RefillMonths(months: int -> seq<int>, year: int, ys: seq<int>)
    requires ys != []
    ensures PopMonths(year, []) + PopYears(months, ys)
      == PopMonths(Last(ys), months(Last(ys))) + PopYears(months, Init(ys))
  {
    assert PopMonths(year, []) + PopYears(months, ys) == PopYears(months, ys);
  }

  /** The days `ds` of a month in the order `pop()` takes them. */
  function PopDays(year: int, month: int, ds: seq<int>): seq<DaySlot>
    decreases |ds|
  {
    if ds == [] then [] else [DaySlot(year, month, Last(ds))] + PopDays(year, month, Init(ds))
  }

  /** The days of the months `slots`, month after month. */
  function MonthsDays(days: (int, int) -> seq<int>, slots: seq<MonthSlot>): seq<DaySlot> {
    if slots == [] then []
    else PopDays(slots[0].year, slots[0].month, days(slots[0].year, slots[0].month)) + MonthsDays(days, slots[1..])
  }

  /** One `pop()` from a month's days. */
  lemma PopDaysLast(year: int, month: int, ds: seq<int>)
    requires ds != []
    ensures PopDays(year, month, ds) == [DaySlot(year, month, Last(ds))] + PopDays(year, month, Init(ds))
  {
  }

  /** Refilling an exhausted month from the next pending month changes nothing pending. */
  lemma RefillDays(days: (int, int) -> seq<int>, year: int, month: int, pending: seq<MonthSlot>)
    requires pending != []
    ensures PopDays(year, month, []) + MonthsDays(days, pending)
      == PopDays(pending[0].year, pending[0].month, days(pending[0].year, pending[0].month))
        + MonthsDays(days, pending[1..])
  {
    assert PopDays(year, month, []) + MonthsDays(days, pending) == MonthsDays(days, pending);
  }

  /** The articles `names` of a day in the order `pop()` takes them. */
  function PopArticles(year: int, month: int, day: int, names: seq<string>): seq<Location>
    decreases |names|
  {
    if names == [] then [] else [Location(year, month, day, Last(names))] + PopArticles(year, month, day, Init(names))
  }

  /** The articles of the days `slots`, day after day. */
  function DaysArticles(articles: (int, int, int) -> seq<string>, slots: seq<DaySlot>): seq<Location> {
    if slots == [] then []
    else
      var s := slots[0];
      PopArticles(s.year, s.month, s.day, articles(s.year, s.month, s.day)) + DaysArticles(articles, slots[1..])
  }

  /** One `pop()` from a day's articles. */
  lemma PopArticlesLast(year: int, month: int, day: int, names: seq<string>)
    requires names != []
    ensures PopArticles(year, month, day, names)
      == [Location(year, month, day, Last(names))] + PopArticles(year, month, day, Init(names))
  {
  }

  /** Refilling an exhausted day from the next pending day changes nothing pending. */
  lemma RefillArticles(articles: (int, int, int) -> seq<string>, year: int, month: int, day: int, pending: seq<DaySlot>)
    requires pending != []
    ensures PopArticles(year, month, day, []) + DaysArticles(articles, pending)
      == PopArticles(pending[0].year, pending[0].month, pending[0].day,
           articles(pending[0].year, pending[0].month, pending[0].day))
        + DaysArticles(articles, pending[1..])
  {
    assert PopArticles(year, month, day, []) + DaysArticles(articles, pending) == DaysArticles(articles, pending);
  }

  /** `list(range(start, end))`. */
  function YearRange(start: int, end: int): seq<int> {
    seq(if start < end then end - start else 0, i => start + i)
  }

  /** Every day the cursor passes through, in order. */
  function DaySlots(sn: Snapshot, start: int, end: int): seq<DaySlot> {
    MonthsDays(DaysOf(sn), PopYears(MonthsOf(sn), YearRange(start, end)))
  }

  /** Every article the cursor visits, in visiting order. */
  function Traversal(sn: Snapshot, start: int, end: int): seq<Location> {
    DaysArticles(ArticlesOf(sn), DaySlots(sn, start, end))
  }

  /** Taking the first of a pending sequence. */
  lemma TakeFirst<T>(x: T, a: seq<T>, b: seq<T>)
    ensures ([x] + a + b)[0] == x && ([x] + a + b)[1..] == a + b
  {
  }

  // ----- What each listing holds -----

  lemma NumericListing(names: seq<string>, v: int)
    ensures SortedBy(Sort(NumericNames(names), IntLe), IntLe)
    ensures v in Sort(NumericNames(names), IntLe) <==> exists i :: 0 <= i < |names| && ParseInt(names[i]) == Some(v)
  {
    IntLeTotalPreorder();
    SortSorted(NumericNames(names), IntLe);
    FilterMapHas(names, ParseInt, v);
    assert v in Sort(NumericNames(names), IntLe) <==> v in multiset(Sort(NumericNames(names), IntLe));
  }

  /** A year's months are ascending and are exactly the values of its entries that
      parse as integers. */
  lemma MonthsListing(sn: Snapshot, year: int, m: int)
    ensures SortedBy(Months(sn, year), IntLe)
    ensures var names := Entries(sn.fs, YearDir(sn.base, year));
      m in Months(sn, year) <==> exists i :: 0 <= i < |names| && ParseInt(names[i]) == Some(m)
  {
    NumericListing(Entries(sn.fs, YearDir(sn.base, year)), m);
  }

  /** A month's days are ascending and are exactly the values of its entries that
      parse as integers. */
  lemma DaysListing(sn: Snapshot, year: int, month: int, d: int)
    ensures SortedBy(Days(sn, year, month), IntLe)
    ensures var names := Entries(sn.fs, MonthDir(sn.base, year, month));
      d in Days(sn, year, month) <==> exists i :: 0 <= i < |names| && ParseInt(names[i]) == Some(d)
  {
    NumericListing(Entries(sn.fs, MonthDir(sn.base, year, month)), d);
  }

  /** A day's articles are its directory listing, reordered by name and nothing dropped. */
  lemma ArticlesListing(sn: Snapshot, year: int, month: int, day: int)
    ensures SortedBy(Articles(sn, year, month, day), StrLe)
    ensures multiset(Articles(sn, year, month, day)) == multiset(Entries(sn.fs, DayDir(sn.base, year, month, day)))
  {
    StrLeTotalPreorder();
    SortSorted(Entries(sn.fs, DayDir(sn.base, year, month, day)), StrLe);
  }

  // ----- Which slots each level produces -----

  lemma {:induction false} PopMonthsHas(year: int, ms: seq<int>, s: MonthSlot)
    ensures s in PopMonths(year, ms) <==> s.year == year && s.month in ms
    decreases |ms|
  {
    if ms != [] {
      PopMonthsHas(year, Init(ms), s);
      assert ms == Init(ms) + [Last(ms)];
    }
  }

  lemma {:induction false} PopYearsHas(months: int -> seq<int>, ys: seq<int>, s: MonthSlot)
    ensures s in PopYears(months, ys) <==> s.year in ys && s.month in months(s.year)
    decreases |ys|
  {
    if ys != [] {
      var y, rest := Last(ys), Init(ys);
      PopYearsHas(months, rest, s);
      PopMonthsHas(y, months(y), s);
      assert ys == rest + [y];
    }
  }

  lemma {:induction false} PopDaysHas(year: int, month: int, ds: seq<int>, t: DaySlot)
    ensures t in PopDays(year, month, ds) <==> t.year == year && t.month == month && t.day in ds
    decreases |ds|
  {
    if ds != [] {
      PopDaysHas(year, month, Init(ds), t);
      assert ds == Init(ds) + [Last(ds)];
    }
  }

  lemma {:induction false} MonthsDaysHas(days: (int, int) -> seq<int>, slots: seq<MonthSlot>, t: DaySlot)
    ensures t in MonthsDays(days, slots) <==> MonthSlot(t.year, t.month) in slots && t.day in days(t.year, t.month)
  {
    if slots != [] {
      MonthsDaysHas(days, slots[1..], t);
      PopDaysHas(slots[0].year, slots[0].month, days(slots[0].year, slots[0].month), t);
      assert slots == [slots[0]] + slots[1..];
    }
  }

  lemma {:induction false} PopArticlesHas(year: int, month: int, day: int, names: seq<string>, loc: Location)
    ensures loc in PopArticles(year, month, day, names) <==>
      loc.year == year && loc.month == month && loc.day == day && loc.name in names
    decreases |names|
  {
    if names != [] {
      PopArticlesHas(year, month, day, Init(names), loc);
      assert names == Init(names) + [Last(names)];
    }
  }

  lemma {:induction false} DaysArticlesHas(articles: (int, int, int) -> seq<string>, slots: seq<DaySlot>, loc: Location)
    ensures loc in DaysArticles(articles, slots) <==>
      DaySlot(loc.year, loc.month, loc.day) in slots && loc.name in articles(loc.year, loc.month, loc.day)
  {
    if slots != [] {
      var s := slots[0];
      DaysArticlesHas(articles, slots[1..], loc);
      PopArticlesHas(s.year, s.month, s.day, articles(s.year, s.month, s.day), loc);
      assert slots == [s] + slots[1..];
    }
  }

  lemma YearRangeHas(start: int, end: int, y: int)
    ensures y in YearRange(start, end) <==> start <= y < end
  {
    if start <= y < end {
      assert YearRange(start, end)[y - start] == y;
    }
  }

  /** Coverage: the cursor visits an article exactly when its year is in range, its
      month and day directories have numeric names, and its file is in the day's listing. */
  lemma TraversalHas(sn: Snapshot, start: int, end: int, loc: Location)
    ensures loc in Traversal(sn, start, end) <==>
      && start <= loc.year < end
      && loc.month in Months(sn, loc.year)
      && loc.day in Days(sn, loc.year, loc.month)
      && loc.name in Entries(sn.fs, DayDir(sn.base, loc.year, loc.month, loc.day))
  {
    var t := DaySlot(loc.year, loc.month, loc.day);
    DaysArticlesHas(ArticlesOf(sn), DaySlots(sn, start, end), loc);
    MonthsDaysHas(DaysOf(sn), PopYears(MonthsOf(sn), YearRange(start, end)), t);
    PopYearsHas(MonthsOf(sn), YearRange(start, end), MonthSlot(loc.year, loc.month));
    YearRangeHas(start, end, loc.year);
    ArticlesListing(sn, loc.year, loc.month, loc.day);
    assert loc.name in Articles(sn, loc.year, loc.month, loc.day) <==>
      loc.name in multiset(Articles(sn, loc.year, loc.month, loc.day));
  }

  // ----- Order -----

  function IntLt(a: int, b: int): bool {
    a < b
  }

  /** Python's `a < b` on `str`. */
  predicate StrLt(a: string, b: string) {
    StrLe(a, b) && a != b
  }

  /** `a` is consumed before `b`: a later year, or the same year and a later month. */
  predicate MonthBefore(a: MonthSlot, b: MonthSlot) {
    a.year > b.year || (a.year == b.year && a.month > b.month)
  }

  /** `a` is consumed before `b`: a later month, or the same month and a later day. */
  predicate DayBefore(a: DaySlot, b: DaySlot) {
    || MonthBefore(MonthSlot(a.year, a.month), MonthSlot(b.year, b.month))
    || (a.year == b.year && a.month == b.month && a.day > b.day)
  }

  /** `a` is visited before `b`: a later day, or the same day and a name that sorts later. */
  predicate VisitedBefore(a: Location, b: Location) {
    || DayBefore(DaySlot(a.year, a.month, a.day), DaySlot(b.year, b.month, b.day))
    || (a.year == b.year && a.month == b.month && a.day == b.day && StrLt(b.name, a.name))
  }

  lemma {:induction false} PopMonthsOrdered(year: int, ms: seq<int>)
    requires SortedBy(ms, IntLt)
    ensures SortedBy(PopMonths(year, ms), MonthBefore)
    decreases |ms|
  {
    if ms != [] {
      var first := [MonthSlot(year, Last(ms))];
      var rest := PopMonths(year, Init(ms));
      PopMonthsOrdered(year, Init(ms));
      forall x, y | x in first && y in rest
        ensures MonthBefore(x, y)
      {
        PopMonthsHas(year, Init(ms), y);
        var k :| 0 <= k < |Init(ms)| && Init(ms)[k] == y.month;
        assert ms[k] == y.month;
      }
      SortedByAppend(first, rest, MonthBefore);
    }
  }

  lemma {:induction false} PopYearsOrdered(months: int -> seq<int>, ys: seq<int>)
    requires SortedBy(ys, IntLt)
    requires forall y :: y in ys ==> SortedBy(months(y), IntLt)
    ensures SortedBy(PopYears(months, ys), MonthBefore)
    decreases |ys|
  {
    if ys != [] {
      var y, init := Last(ys), Init(ys);
      var here := PopMonths(y, months(y));
      var rest := PopYears(months, init);
      assert forall z :: z in init ==> z in ys;
      PopYearsOrdered(months, init);
      PopMonthsOrdered(y, months(y));
      forall a, b | a in here && b in rest
        ensures MonthBefore(a, b)
      {
        PopMonthsHas(y, months(y), a);
        PopYearsHas(months, init, b);
        var k :| 0 <= k < |init| && init[k] == b.year;
        assert ys[k] == b.year;
      }
      SortedByAppend(here, rest, MonthBefore);
    }
  }

  lemma {:induction false} PopDaysOrdered(year: int, month: int, ds: seq<int>)
    requires SortedBy(ds, IntLt)
    ensures SortedBy(PopDays(year, month, ds), DayBefore)
    decreases |ds|
  {
    if ds != [] {
      var first := [DaySlot(year, month, Last(ds))];
      var rest := PopDays(year, month, Init(ds));
      PopDaysOrdered(year, month, Init(ds));
      forall x, y | x in first && y in rest
        ensures DayBefore(x, y)
      {
        PopDaysHas(year, month, Init(ds), y);
        var k :| 0 <= k < |Init(ds)| && Init(ds)[k] == y.day;
        assert ds[k] == y.day;
      }
      SortedByAppend(first, rest, DayBefore);
    }
  }

  lemma {:induction false} MonthsDaysOrdered(days: (int, int) -> seq<int>, slots: seq<MonthSlot>)
    requires SortedBy(slots, MonthBefore)
    requires forall s :: s in slots ==> SortedBy(days(s.year, s.month), IntLt)
    ensures SortedBy(MonthsDays(days, slots), DayBefore)
  {
    if slots != [] {
      var s := slots[0];
      var here := PopDays(s.year, s.month, days(s.year, s.month));
      var rest := MonthsDays(days, slots[1..]);
      assert forall z :: z in slots[1..] ==> z in slots;
      MonthsDaysOrdered(days, slots[1..]);
      PopDaysOrdered(s.year, s.month, days(s.year, s.month));
      forall a, b | a in here && b in rest
        ensures DayBefore(a, b)
      {
        PopDaysHas(s.year, s.month, days(s.year, s.month), a);
        MonthsDaysHas(days, slots[1..], b);
        var k :| 0 <= k < |slots[1..]| && slots[1..][k] == MonthSlot(b.year, b.month);
        assert slots[k + 1] == MonthSlot(b.year, b.month);
      }
      SortedByAppend(here, rest, DayBefore);
    }
  }

  lemma {:induction false} PopArticlesOrdered(year: int, month: int, day: int, names: seq<string>)
    requires SortedBy(names, StrLt)
    ensures SortedBy(PopArticles(year, month, day, names), VisitedBefore)
    decreases |names|
  {
    if names != [] {
      var first := [Location(year, month, day, Last(names))];
      var rest := PopArticles(year, month, day, Init(names));
      PopArticlesOrdered(year, month, day, Init(names));
      forall x, y | x in first && y in rest
        ensures VisitedBefore(x, y)
      {
        PopArticlesHas(year, month, day, Init(names), y);
        var k :| 0 <= k < |Init(names)| && Init(names)[k] == y.name;
        assert names[k] == y.name;
      }
      SortedByAppend(first, rest, VisitedBefore);
    }
  }

  lemma {:induction false} DaysArticlesOrdered(articles: (int, int, int) -> seq<string>, slots: seq<DaySlot>)
    requires SortedBy(slots, DayBefore)
    requires forall s :: s in slots ==> SortedBy(articles(s.year, s.month, s.day), StrLt)
    ensures SortedBy(DaysArticles(articles, slots), VisitedBefore)
  {
    if slots != [] {
      var s := slots[0];
      var here := PopArticles(s.year, s.month, s.day, articles(s.year, s.month, s.day));
      var rest := DaysArticles(articles, slots[1..]);
      assert forall z :: z in slots[1..] ==> z in slots;
      DaysArticlesOrdered(articles, slots[1..]);
      PopArticlesOrdered(s.year, s.month, s.day, articles(s.year, s.month, s.day));
      forall a, b | a in here && b in rest
        ensures VisitedBefore(a, b)
      {
        PopArticlesHas(s.year, s.month, s.day, articles(s.year, s.month, s.day), a);
        DaysArticlesHas(articles, slots[1..], b);
        var k :| 0 <= k < |slots[1..]| && slots[1..][k] == DaySlot(b.year, b.month, b.day);
        assert slots[k + 1] == DaySlot(b.year, b.month, b.day);
      }
      SortedByAppend(here, rest, VisitedBefore);
    }
  }

  /** `os.listdir` never reports a name twice. */
  predicate ListingsDistinct(fs: FileSystem) {
    forall p :: p in fs ==> Distinct(fs[p])
  }

  /** No year or month directory in range has two entries that parse to the same
      number, as "7" and "07" would. */
  predicate UniqueNumbers(sn: Snapshot, start: int, end: int) {
    && (forall y :: start <= y < end ==> Distinct(NumericNames(Entries(sn.fs, YearDir(sn.base, y)))))
    && (forall y, m :: start <= y < end && m in Months(sn, y) ==>
          Distinct(NumericNames(Entries(sn.fs, MonthDir(sn.base, y, m)))))
  }

  lemma AscendingDistinct(s: seq<int>)
    requires SortedBy(s, IntLe) && Distinct(s)
    ensures SortedBy(s, IntLt)
  {
  }

  lemma NamesAscendingDistinct(s: seq<string>)
    requires SortedBy(s, StrLe) && Distinct(s)
    ensures SortedBy(s, StrLt)
  {
  }

  /** A year's months, once "7" and "07" cannot both occur, strictly ascend. */
  lemma MonthsAscending(sn: Snapshot, start: int, end: int, y: int)
    requires UniqueNumbers(sn, start, end) && start <= y < end
    ensures SortedBy(MonthsOf(sn)(y), IntLt)
  {
    MonthsListing(sn, y, 0);
    SortDistinct(NumericNames(Entries(sn.fs, YearDir(sn.base, y))), IntLe);
    AscendingDistinct(Months(sn, y));
  }

  /** So do the days of each of its months. */
  lemma DaysAscending(sn: Snapshot, start: int, end: int, y: int, m: int)
    requires UniqueNumbers(sn, start, end) && start <= y < end && m in Months(sn, y)
    ensures SortedBy(DaysOf(sn)(y, m), IntLt)
  {
    DaysListing(sn, y, m, 0);
    SortDistinct(NumericNames(Entries(sn.fs, MonthDir(sn.base, y, m))), IntLe);
    AscendingDistinct(Days(sn, y, m));
  }

  /** A day's article names, never listed twice, strictly ascend. */
  lemma ArticlesAscending(sn: Snapshot, y: int, m: int, d: int)
    requires ListingsDistinct(sn.fs)
    ensures SortedBy(ArticlesOf(sn)(y, m, d), StrLt)
  {
    var names := Entries(sn.fs, DayDir(sn.base, y, m, d));
    assert Distinct(names);
    ArticlesListing(sn, y, m, d);
    SortDistinct(names, StrLe);
    NamesAscendingDistinct(Articles(sn, y, m, d));
  }

  /** Order and exactly-once: when no directory holds two spellings of one number,
      the cursor visits years from newest to oldest, months and days from last to
      first, the articles of a day in reverse name order, and so no article twice. */
  lemma TraversalOrdered(sn: Snapshot, start: int, end: int)
    requires ListingsDistinct(sn.fs) && UniqueNumbers(sn, start, end)
    ensures SortedBy(Traversal(sn, start, end), VisitedBefore)
    ensures Distinct(Traversal(sn, start, end))
  {
    var ys := YearRange(start, end);
    forall y | y in ys
      ensures SortedBy(MonthsOf(sn)(y), IntLt)
    {
      YearRangeHas(start, end, y);
      MonthsAscending(sn, start, end, y);
    }
    PopYearsOrdered(MonthsOf(sn), ys);
    var months := PopYears(MonthsOf(sn), ys);
    forall s | s in months
      ensures SortedBy(DaysOf(sn)(s.year, s.month), IntLt)
    {
      PopYearsHas(MonthsOf(sn), ys, s);
      YearRangeHas(start, end, s.year);
      DaysAscending(sn, start, end, s.year, s.month);
    }
    MonthsDaysOrdered(DaysOf(sn), months);
    forall t | t in DaySlots(sn, start, end)
      ensures SortedBy(ArticlesOf(sn)(t.year, t.month, t.day), StrLt)
    {
      ArticlesAscending(sn, t.year, t.month, t.day);
    }
    DaysArticlesOrdered(ArticlesOf(sn), DaySlots(sn, start, end));
  }

  // ----- Years newest first, whatever the directories hold -----

  lemma {:induction false} MonthsDaysAppend(days: (int, int) -> seq<int>, a: seq<MonthSlot>, b: seq<MonthSlot>)
    ensures MonthsDays(days, a + b) == MonthsDays(days, a) + MonthsDays(days, b)
  {
    if a == [] {
      assert a + b == b;
    } else {
      assert (a + b)[0] == a[0];
      assert (a + b)[1..] == a[1..] + b;
      MonthsDaysAppend(days, a[1..], b);
    }
  }

  lemma {:induction false} DaysArticlesAppend(articles: (int, int, int) -> seq<string>, a: seq<DaySlot>, b: seq<DaySlot>)
    ensures DaysArticles(articles, a + b) == DaysArticles(articles, a) + DaysArticles(articles, b)
  {
    if a == [] {
      assert a + b == b;
    } else {
      assert (a + b)[0] == a[0];
      assert (a + b)[1..] == a[1..] + b;
      DaysArticlesAppend(articles, a[1..], b);
    }
  }

  /** `a` belongs to the same year as `b` or a later one. */
  predicate NotOlder(a: Location, b: Location) {
    a.year >= b.year
  }

  /** The articles of the years `ys`: those of the last year, then those of the rest. */
  lemma YearsArticlesSplit(
    months: int -> seq<int>, days: (int, int) -> seq<int>, articles: (int, int, int) -> seq<string>, ys: seq<int>)
    requires ys != []
    ensures DaysArticles(articles, MonthsDays(days, PopYears(months, ys)))
      == DaysArticles(articles, MonthsDays(days, PopMonths(Last(ys), months(Last(ys)))))
        + DaysArticles(articles, MonthsDays(days, PopYears(months, Init(ys))))
  {
    var hereMonths := PopMonths(Last(ys), months(Last(ys)));
    MonthsDaysAppend(days, hereMonths, PopYears(months, Init(ys)));
    DaysArticlesAppend(articles, MonthsDays(days, hereMonths), MonthsDays(days, PopYears(months, Init(ys))));
  }

  /** Every article reached from one year's months belongs to that year. */
  lemma YearArticlesInYear(
    months: int -> seq<int>, days: (int, int) -> seq<int>, articles: (int, int, int) -> seq<string>, y: int, a: Location)
    requires a in DaysArticles(articles, MonthsDays(days, PopMonths(y, months(y))))
    ensures a.year == y
  {
    DaysArticlesHas(articles, MonthsDays(days, PopMonths(y, months(y))), a);
    MonthsDaysHas(days, PopMonths(y, months(y)), DaySlot(a.year, a.month, a.day));
    PopMonthsHas(y, months(y), MonthSlot(a.year, a.month));
  }

  lemma {:induction false} YearsNewestFirst(
    months: int -> seq<int>, days: (int, int) -> seq<int>, articles: (int, int, int) -> seq<string>, ys: seq<int>)
    requires SortedBy(ys, IntLt)
    ensures SortedBy(DaysArticles(articles, MonthsDays(days, PopYears(months, ys))), NotOlder)
    ensures forall loc :: loc in DaysArticles(articles, MonthsDays(days, PopYears(months, ys))) ==> loc.year in ys
    decreases |ys|
  {
    if ys != [] {
      var y, init := Last(ys), Init(ys);
      var here := DaysArticles(articles, MonthsDays(days, PopMonths(y, months(y))));
      var rest := DaysArticles(articles, MonthsDays(days, PopYears(months, init)));
      assert ys == init + [y];
      YearsArticlesSplit(months, days, articles, ys);
      YearsNewestFirst(months, days, articles, init);
      forall a | a in here
        ensures a.year == y
      {
        YearArticlesInYear(months, days, articles, y, a);
      }
      forall a, b | a in here && b in rest
        ensures NotOlder(a, b)
      {
        var k :| 0 <= k < |init| && init[k] == b.year;
        assert ys[k] == b.year;
      }
      SortedByAppend(here, rest, NotOlder);
    }
  }

  /** Whatever the directories hold, years are visited from `end - 1` down to `start`:
      no article of a year comes after an article of an earlier year, and every
      visited year lies in `[start, end)`. */
  lemma TraversalNewestYearFirst(sn: Snapshot, start: int, end: int, loc: Location)
    ensures SortedBy(Traversal(sn, start, end), NotOlder)
    ensures loc in Traversal(sn, start, end) ==> start <= loc.year < end
  {
    YearsNewestFirst(MonthsOf(sn), DaysOf(sn), ArticlesOf(sn), YearRange(start, end));
    YearRangeHas(start, end, loc.year);
  }
}
