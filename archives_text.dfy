/**
 * The text-processing script: it lists the archive with each numeric directory entry
 * turned into an `int` in place, reads one article file into a dictionary of fields,
 * and validates those fields into the document the search index is given.
 */
module ArchivesText {
  import opened Wrappers
  import opened PyStr
  import opened PyInt
  import opened Lists
  import opened Layout
  import opened Walk
  import Uploader

  /** The article types the index accepts. */
  const VALID_ARTICLE_TYPES: seq<string> := ["article", "advertisement"]

  /** This script's own, shorter list of author titles. */
  const VALID_AUTHOR_TITLES: seq<string> := ["", "DESK EDITOR"]

  /** A value the script stores in a listing or a dictionary: a directory entry is a
      `str` until `int()` accepts it. */
  datatype Scalar = Int(i: int) | Str(s: string)

  /** The `{'year': …, 'month': …, 'day': …}` dictionary. */
  datatype Date = Date(year: Scalar, month: Scalar, day: Scalar)

  /** `checkDate`: each of the three fields is an `int`, checked year first. */
  predicate CheckDate(date: Date) {
    if !date.year.Int? then false
    else if !date.month.Int? then false
    else if !date.day.Int? then false
    else true
  }

  /** Which check of `create_article_fields` failed, in the order they run. */
  datatype Rejection = BadArticleType | BadAuthorTitle | NumberNotInt | BadDate

  function Rank(c: Rejection): nat {
    match c
    case BadArticleType => 0
    case BadAuthorTitle => 1
    case NumberNotInt => 2
    case BadDate => 3
  }

  /** Whether the check `c` rejects these arguments. */
  predicate Fails(c: Rejection, articleType: string, authorTitle: string, articleNumber: Scalar, date: Date) {
    match c
    case BadArticleType => articleType !in VALID_ARTICLE_TYPES
    case BadAuthorTitle => authorTitle !in VALID_AUTHOR_TITLES
    case NumberNotInt => !articleNumber.Int?
    case BadDate => !CheckDate(date)
  }

  /** The document `create_article_fields` returns: its eight keys. */
  datatype ArticleFields = ArticleFields(
    articleText: string,
    articleType: string,
    articleNumber: int,
    publishDate: string,
    title: string,
    subtitle: string,
    author: string,
    authorTitle: string)

  /** `create_article_fields`: `None` (here the check that printed its complaint) as
      soon as one check fails; otherwise the eight fields, the date rendered as a
      zero-padded stamp. */
  function CreateArticleFields(articleText: string, articleType: string, articleNumber: Scalar, publishDate: Date,
                               title: string, subtitle: string, author: string, authorTitle: string)
    : (r: Result<ArticleFields, Rejection>)
    ensures r.Ok? <==> forall c :: !Fails(c, articleType, authorTitle, articleNumber, publishDate)
    ensures r.Err? ==>
      && Fails(r.error, articleType, authorTitle, articleNumber, publishDate)
      && forall c :: Rank(c) < Rank(r.error) ==> !Fails(c, articleType, authorTitle, articleNumber, publishDate)
    ensures r.Ok? ==>
      && r.value.articleType in VALID_ARTICLE_TYPES && r.value.authorTitle in VALID_AUTHOR_TITLES
      && r.value.articleText == articleText && r.value.articleType == articleType
      && Int(r.value.articleNumber) == articleNumber
      && publishDate.year.Int? && publishDate.month.Int? && publishDate.day.Int?
      && r.value.publishDate == PublishDate(publishDate.year.i, publishDate.month.i, publishDate.day.i)
      && r.value.title == title && r.value.subtitle == subtitle
      && r.value.author == author && r.value.authorTitle == authorTitle
  {
    if articleType !in VALID_ARTICLE_TYPES then
      assert Fails(BadArticleType, articleType, authorTitle, articleNumber, publishDate);
      Err(BadArticleType)
    else if authorTitle !in VALID_AUTHOR_TITLES then
      assert Fails(BadAuthorTitle, articleType, authorTitle, articleNumber, publishDate);
      Err(BadAuthorTitle)
    else if !articleNumber.Int? then
      assert Fails(NumberNotInt, articleType, authorTitle, articleNumber, publishDate);
      Err(NumberNotInt)
    else if !CheckDate(publishDate) then
      assert Fails(BadDate, articleType, authorTitle, articleNumber, publishDate);
      Err(BadDate)
    else
      Ok(ArticleFields(articleText, articleType, articleNumber.i,
        PublishDate(publishDate.year.i, publishDate.month.i, publishDate.day.i),
        title, subtitle, author, authorTitle))
  }

  /** A date of `int`s passes `checkDate`, and only such a date does. */
  lemma CheckDateInts(date: Date)
    ensures CheckDate(date) <==> exists y, m, d :: date == Date(Int(y), Int(m), Int(d))
  {
    if CheckDate(date) {
      assert date == Date(Int(date.year.i), Int(date.month.i), Int(date.day.i));
    }
  }

  /** The stamp of an accepted document reads back as its date when the year has at
      most four digits and the month and day at most two. */
  lemma CreateArticleFieldsDate(articleText: string, articleType: string, articleNumber: Scalar, y: int, m: int, d: int,
                                title: string, subtitle: string, author: string, authorTitle: string)
    requires articleType in VALID_ARTICLE_TYPES && authorTitle in VALID_AUTHOR_TITLES && articleNumber.Int?
    requires 0 <= y < 10000 && 0 <= m < 100 && 0 <= d < 100
    ensures var r := CreateArticleFields(articleText, articleType, articleNumber, Date(Int(y), Int(m), Int(d)),
                                         title, subtitle, author, authorTitle);
      && r.Ok? && |r.value.publishDate| == 20
      && ParseInt(r.value.publishDate[..4]) == Some(y)
      && ParseInt(r.value.publishDate[5..7]) == Some(m)
      && ParseInt(r.value.publishDate[8..10]) == Some(d)
  {
    PublishDateShape(y, m, d);
  }

  /** `int(entry)` inside `try`, keeping the entry when it raises. */
  function Convert(x: Scalar): (r: Scalar)
    ensures r.Str? ==> r == x && ParseInt(x.s).None?
    ensures r.Int? ==> x == r || (x.Str? && ParseInt(x.s) == Some(r.i))
  {
    match x
    case Int(_) => x
    case Str(s) =>
      match ParseInt(s)
      case Some(v) => Int(v)
      case None => x
  }

  /** The listing after the conversion loop: same length and order, each entry
      converted where it stands. */
  function ConvertAll(s: seq<Scalar>): (r: seq<Scalar>)
    ensures |r| == |s| && forall i :: 0 <= i < |s| ==> r[i] == Convert(s[i])
  {
    seq(|s|, i requires 0 <= i < |s| => Convert(s[i]))
  }

  /** The conversion loop every `get_archives_*` function runs: `entries[i]` is
      overwritten with `int(entries[i])` when that succeeds. */
  method ConvertInPlace(entries: array<Scalar>)
    modifies entries
    ensures entries[..] == ConvertAll(old(entries[..]))
  {
    ghost var before := entries[..];
    for i := 0 to entries.Length
      invariant entries[..i] == ConvertAll(before[..i])
      invariant entries[i..] == before[i..]
    {
      assert Init(before[..i + 1]) == before[..i];
      entries[i] := Convert(entries[i]);
    }
    assert before[..entries.Length] == before;
  }

  function Names(names: seq<string>): (r: seq<Scalar>)
    ensures |r| == |names| && forall i :: 0 <= i < |names| ==> r[i] == Str(names[i])
  {
    if names == [] then [] else Names(Init(names)) + [Str(Last(names))]
  }

  /** `os.listdir(path)` followed by the conversion loop. */
  method ListConverted(fs: FileSystem, path: string) returns (entries: array<Scalar>)
    requires Listable(fs, path)
    ensures fresh(entries) && entries[..] == ConvertAll(Names(Entries(fs, path)))
  {
    var names := Entries(fs, path);
    entries := new Scalar[|names|](i => if 0 <= i < |names| then Str(names[i]) else Str(""));
    assert entries[..] == Names(names);
    ConvertInPlace(entries);
  }

  /** `get_archives_years`: the archive's top directory, `base`. */
  method GetArchivesYears(fs: FileSystem, base: string) returns (entries: array<Scalar>)
    requires Listable(fs, base)
    ensures fresh(entries) && entries[..] == ConvertAll(Names(Entries(fs, base)))
  {
    entries := ListConverted(fs, base);
  }

  /** `get_archives_months`: the year's directory, the one the upload script lists. */
  method GetArchivesMonths(fs: FileSystem, base: string, year: int) returns (entries: array<Scalar>)
    requires Listable(fs, YearDir(base, year))
    ensures fresh(entries) && entries[..] == ConvertAll(Names(Entries(fs, YearDir(base, year))))
  {
    entries := ListConverted(fs, base + Component(year, 4) + "/");
  }

  /** `get_archives_days`: the month's directory. */
  method GetArchivesDays(fs: FileSystem, base: string, year: int, month: int) returns (entries: array<Scalar>)
    requires Listable(fs, MonthDir(base, year, month))
    ensures fresh(entries) && entries[..] == ConvertAll(Names(Entries(fs, MonthDir(base, year, month))))
  {
    entries := ListConverted(fs, base + Component(year, 4) + "/" + Component(month, 2) + "/");
  }

  /** `get_archives_article_filenames`: the day's directory, named without the final
      `/`. */
  method GetArchivesArticleFilenames(fs: FileSystem, base: string, year: int, month: int, day: int)
    returns (entries: array<Scalar>)
    requires Listable(fs, DayPath(base, year, month, day))
    ensures fresh(entries) && entries[..] == ConvertAll(Names(Entries(fs, DayPath(base, year, month, day))))
  {
    entries := ListConverted(fs, base + Component(year, 4) + "/" + Component(month, 2) + "/" + Component(day, 2));
  }

  /** The day directory as `get_archives_article_filenames` writes it. */
  function DayPath(base: string, year: int, month: int, day: int): string {
    MonthDir(base, year, month) + Component(day, 2)
  }

  /** Without its final `/` the path still names the upload script's day directory,
      so both scripts list the same articles. */
  lemma DayPathSameDirectory(fs: FileSystem, base: string, year: int, month: int, day: int)
    ensures DirKey(DayDir(base, year, month, day)) == DirKey(DayPath(base, year, month, day))
    ensures Entries(fs, DayPath(base, year, month, day)) == Entries(fs, DayDir(base, year, month, day))
  {
    var p := DayPath(base, year, month, day);
    assert DayDir(base, year, month, day) == p + "/";
    assert (p + "/")[..|p|] == p;
  }

  /** The `int`s left in the list after the conversion, in order. */
  function Ints(s: seq<Scalar>): (r: seq<int>)
    ensures |r| <= |s|
  {
    if s == [] then [] else Ints(Init(s)) + (if Last(s).Int? then [Last(s).i] else [])
  }

  /** The numbers this script leaves in a listing are exactly those the upload script
      keeps from it, in listing order (the upload script then sorts them). */
  lemma {:induction false} ConvertedNumbers(names: seq<string>)
    ensures Ints(ConvertAll(Names(names))) == NumericNames(names)
  {
    if names != [] {
      var init := Init(names);
      ConvertedNumbers(init);
      var c := ConvertAll(Names(names));
      assert Init(c) == ConvertAll(Names(init)) && Last(c) == Convert(Str(Last(names)));
    }
  }

  /** A directory the scripts write for a date is read back as that number. */
  lemma ComponentConverts(n: int, width: int)
    ensures Convert(Str(Component(n, width))) == Int(n)
  {
    ParseZFill(n, width);
  }

  /** The fields `get_article_data` returns. */
  datatype ArticleData = ArticleData(
    articleText: string,
    articleType: string,
    articleNumber: int,
    publishDate: Date,
    title: string,
    subtitle: string,
    author: string,
    authorTitle: string)

  /** The article's number: the first run of digits in the file name before its first
      `.`, as an `int`. */
  function NumberPart(filename: string): string
    requires HasNumber(filename)
  {
    var head := Split(filename, '.')[0];
    FirstDigitRun(head).value
  }

  /** `get_article_data` does not raise on the file name: it has a `.`, and a digit
      before the first one. */
  predicate HasNumber(filename: string) {
    '.' in filename && FirstDigitRun(Split(filename, '.')[0]).Some?
  }

  /** `get_article_data` after the file is read: `contents` is the file's text. The
      first three lines lose their markers and surrounding whitespace, the rest is
      joined without separators; the file name gives the number and the type. */
  function GetArticleData(year: Scalar, month: Scalar, day: Scalar, filename: string, contents: string): ArticleData
    requires |SplitLines(contents)| >= 3 && HasNumber(filename)
  {
    var lines := SplitLines(contents);
    SplitHead(filename, '.');
    var parts := Split(filename, '.');
    ArticleData(Strip(Join(lines[3..], "")), Strip(parts[1]), DecimalValue(NumberPart(filename)),
      Date(year, month, day),
      Strip(SliceFrom(lines[0], 2)), Strip(SliceFrom(lines[1], 3)), Strip(SliceFrom(lines[2], 4)), "")
  }

  /** The title, subtitle and author are their line after its marker with only the
      whitespace at either end taken off: every visible character is kept in order,
      and no inner whitespace is collapsed. */
  lemma GetArticleDataHeadings(year: Scalar, month: Scalar, day: Scalar, filename: string, contents: string)
    requires |SplitLines(contents)| >= 3 && HasNumber(filename)
    ensures var r := GetArticleData(year, month, day, filename, contents);
      var lines := SplitLines(contents);
      && StrippedFrom(r.title, SliceFrom(lines[0], 2))
      && StrippedFrom(r.subtitle, SliceFrom(lines[1], 3))
      && StrippedFrom(r.author, SliceFrom(lines[2], 4))
      && NonSpace(r.title) == NonSpace(SliceFrom(lines[0], 2)) && Tight(r.title)
      && NonSpace(r.subtitle) == NonSpace(SliceFrom(lines[1], 3)) && Tight(r.subtitle)
      && NonSpace(r.author) == NonSpace(SliceFrom(lines[2], 4)) && Tight(r.author)
  {
    var lines := SplitLines(contents);
    StripKeepsText(SliceFrom(lines[0], 2));
    StripKeepsText(SliceFrom(lines[1], 3));
    StripKeepsText(SliceFrom(lines[2], 4));
    StripPadded(SliceFrom(lines[0], 2));
    StripPadded(SliceFrom(lines[1], 3));
    StripPadded(SliceFrom(lines[2], 4));
  }

  /** The text is the lines after the third, joined without separators, and the type
      the file name's text between its first and second `.`, each with only the
      whitespace at either end taken off. The author title is always empty, and the
      date is the one the caller passed. */
  lemma GetArticleDataBody(year: Scalar, month: Scalar, day: Scalar, filename: string, contents: string)
    requires |SplitLines(contents)| >= 3 && HasNumber(filename)
    ensures var r := GetArticleData(year, month, day, filename, contents);
      var body := Join(SplitLines(contents)[3..], "");
      && StrippedFrom(r.articleText, body)
      && NonSpace(r.articleText) == NonSpace(body) && Tight(r.articleText)
      && |Split(filename, '.')| >= 2
      && StrippedFrom(r.articleType, Split(filename, '.')[1])
      && NonSpace(r.articleType) == NonSpace(Split(filename, '.')[1]) && '.' !in r.articleType
      && r.authorTitle == "" && r.publishDate == Date(year, month, day)
  {
    var body := Join(SplitLines(contents)[3..], "");
    SplitHead(filename, '.');
    StripKeepsText(body);
    StripKeepsText(Split(filename, '.')[1]);
    StripPadded(body);
    StripPadded(Split(filename, '.')[1]);
  }

  /** No whitespace at either end. */
  predicate Tight(s: string) {
    s != [] ==> !IsSpace(s[0]) && !IsSpace(s[|s| - 1])
  }

  /** `int()` drops only the number's leading zeros: zero-filled back to the width of
      the digit run it came from, the number is that run. */
  lemma ArticleNumberDigits(year: Scalar, month: Scalar, day: Scalar, filename: string, contents: string)
    requires |SplitLines(contents)| >= 3 && HasNumber(filename)
    ensures var n := GetArticleData(year, month, day, filename, contents).articleNumber;
      var run := NumberPart(filename);
      ParseInt(run) == Some(n) && ZFill(IntToStr(n), |run|) == run
  {
    var run := NumberPart(filename);
    ParseIntOfDigits(run);
    DigitsZFilled(run);
  }

  /** The run is the first run of digits in the file name before the first `.`: no
      digit precedes it there, and no digit follows it. */
  lemma NumberPartPlace(filename: string)
    requires HasNumber(filename)
    ensures var run := NumberPart(filename);
      var head := filename[..IndexOf(filename, '.')];
      var i := FirstDigit(head);
      && run != [] && AllDigits(run)
      && i + |run| <= |head| && head[i..i + |run|] == run
      && (forall k :: 0 <= k < i ==> !IsDigit(head[k]))
      && (i + |run| == |head| || !IsDigit(head[i + |run|]))
  {
    SplitHead(filename, '.');
  }

  /** `create_article_fields(**data)`: the dictionary's entries passed by name. */
  function CreateFromData(a: ArticleData): Result<ArticleFields, Rejection> {
    CreateArticleFields(a.articleText, a.articleType, Int(a.articleNumber), a.publishDate,
      a.title, a.subtitle, a.author, a.authorTitle)
  }

  /** With an empty author title and a numeric article number, only the type and the
      date can be rejected. */
  lemma CreateFromDataChecks(a: ArticleData)
    requires a.authorTitle == ""
    ensures var r := CreateFromData(a);
      && (r.Ok? <==> a.articleType in VALID_ARTICLE_TYPES && CheckDate(a.publishDate))
      && (r.Err? ==> r.error == BadArticleType || r.error == BadDate)
  {
    assert !Fails(BadAuthorTitle, a.articleType, a.authorTitle, Int(a.articleNumber), a.publishDate);
    assert !Fails(NumberNotInt, a.articleType, a.authorTitle, Int(a.articleNumber), a.publishDate);
  }

  /** `create_article_fields(**get_article_data(…))` produces a document exactly when
      the type from the file name is a valid one and the date is made of `int`s; the
      author title `''` and the numeric article number always pass. */
  lemma ArticleDataAccepted(year: Scalar, month: Scalar, day: Scalar, filename: string, contents: string)
    requires |SplitLines(contents)| >= 3 && HasNumber(filename)
    ensures var a := GetArticleData(year, month, day, filename, contents);
      var r := CreateFromData(a);
      && (r.Ok? <==> a.articleType in VALID_ARTICLE_TYPES && year.Int? && month.Int? && day.Int?)
      && (r.Err? ==> r.error == BadArticleType || r.error == BadDate)
      && (r.Ok? ==> r.value.publishDate == PublishDate(year.i, month.i, day.i) && r.value.authorTitle == "")
  {
    var a := GetArticleData(year, month, day, filename, contents);
    assert a.authorTitle == "" && a.publishDate == Date(year, month, day);
    CreateFromDataChecks(a);
  }

  /** The path `get_article_data` opens: the date's parts as `str()` gives them,
      zero-filled, then the file name. */
  function ArticlePath(base: string, year: Scalar, month: Scalar, day: Scalar, filename: string): string {
    base + ZFill(ScalarStr(year), 4) + "/" + ZFill(ScalarStr(month), 2) + "/" + ZFill(ScalarStr(day), 2) + "/" + filename
  }

  /** Python's `str(x)`. */
  function ScalarStr(x: Scalar): string {
    match x
    case Int(i) => IntToStr(i)
    case Str(s) => s
  }

  /** For a date of numbers, the file opened is the one the upload script opens for
      the same date and name. */
  lemma ArticlePathAgrees(base: string, year: int, month: int, day: int, filename: string)
    ensures ArticlePath(base, Int(year), Int(month), Int(day), filename) == DayDir(base, year, month, day) + filename
  {
  }

  /** The two scripts read the same file alike: the upload script's headings are
      these with whitespace runs collapsed, the texts are equal, the type differs only
      by surrounding whitespace, and an all-digit number part is read as the same
      number. */
  lemma BothScriptsAgree(year: int, month: int, day: int, filename: string, contents: string)
    requires |SplitLines(contents)| >= 3 && HasNumber(filename)
    ensures var a := GetArticleData(Int(year), Int(month), Int(day), filename, contents);
      var u := Uploader.ArticleRecord(contents, filename, PublishDate(year, month, day));
      && u.title == Collapse(a.title) && u.subtitle == Collapse(a.subtitle)
      && u.articleText == a.articleText
      && a.articleType == Strip(u.articleType)
      && (AllDigits(u.articleNumber) ==> ParseInt(u.articleNumber) == Some(a.articleNumber))
  {
    SplitHead(filename, '.');
    var head := Split(filename, '.')[0];
    if AllDigits(head) {
      assert head != [] && IsDigit(head[0]);
      assert FirstDigit(head) == 0;
      var n := DigitRun(head);
      assert n == |head|;
      assert NumberPart(filename) == head;
      ParseIntOfDigits(head);
    }
  }
}
