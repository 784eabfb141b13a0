# Stanford Daily archive indexing scripts, in Dafny

A model of the two scripts that prepare the Stanford Daily text archive
(`<base><yyyy>/<mm>/<dd>/<article file>`) for the search index, with the properties
the scripts rely on proved about it.

- `cloudsearch/cloudsearch-process-and-upload.py` is the upload script.
  - Its `ArchivesTextProcessor` is a cursor over the archive. It keeps one "left to
    visit" list per level (years, months of the year, days of the month, articles of
    the day). It takes values with `pop()` from the end of each list, and refills an
    exhausted list from the next value of the level above. This is the class
    `Uploader.ArchivesTextProcessor`, whose `seq` fields are those four lists plus the
    current year, month, day and article.
  - The constructor, its start phases and every move are proved against
    `Walk.Traversal`, a function of the directory snapshot that lists the articles in
    visiting order. The other members are proved against the listing, path and
    record functions (`Walk.Months`, `Layout.YearDir`, `Layout.PublishDate`,
    `Uploader.ArticleRecord` and their kin).
    - The cursor's pending locations are always a suffix of that traversal.
    - Each move takes the next location, or reports `-1` exactly when none is left.
  - `Logger.log` writes to a name `f` that nothing binds, so every log call of the
    upload script raises `NameError`. The class models the evidently intended
    script, whose log calls return. Members named `…AsWritten` model the script as
    written, where the `-1` end of the traversal, an unknown path level and a
    missing line marker raise `NameError` (see "## Findings").
  - Properties proved of the traversal:
    - coverage: which articles it visits;
    - order: newest year first, each level in descending order;
    - exactly-once visiting.
  - `get_current_article_data` is modelled in two parts.
    - `Uploader.ArticleRecord` is the cleaned-up title, subtitle and byline, the
      body, and the name's number and type.
    - The byline's split is the ordered vocabulary scan in `Bylines`.
- `cloudsearch/process-archives-text.py` is the text-processing script, in
  `ArchivesText`.
  - `checkDate` and `create_article_fields` are its checks, run in order; the
    failing check is reported as a `Rejection`.
  - The `get_archives_*` listings are an in-place conversion loop over an
    `array<Scalar>`.
  - `get_article_data` becomes a function of the file's text.
  - Lemmas relate this script to the upload script: the same directories, the same
    numbers, and the same article read alike up to whitespace.

Supporting modules:

| module | contents |
|---|---|
| `Wrappers` | `Option` and `Result` |
| `PyStr` | Python's `strip`, `re.sub('\s+', ' ', …)`, `upper`, `find`, `split`, `splitlines`, `join` and slicing, on `seq<char>` |
| `PyInt` | Python's `int()` on strings, `str()` of an int and `zfill` |
| `Sorting` | `list.sort()` as an insertion sort under a total preorder |
| `Lists` | `pop()` as `Last` and `Init`, and the filtering loop as `FilterMap` |
| `Layout` | the directory snapshot standing for `os.listdir`, the paths and the publish-date stamp |

## Model

| member | source | states |
|---|---|---|
| Uploader.ArchivesTextProcessor.constructor | cloudsearch/cloudsearch-process-and-upload.py:49-74 | The fields hold the arguments. The cursor holds the first article of the whole range's traversal, and the rest of that traversal is pending. It holds none, with every list consumed, exactly when the range has no article at all. |
| Uploader.ArchivesTextProcessor.StartYear | cloudsearch/cloudsearch-process-and-upload.py:60-64 | With all years of `range(start, end)` left, the cursor ends at the start of the articles of those years, taken newest year first. |
| Uploader.ArchivesTextProcessor.StartMonth | cloudsearch/cloudsearch-process-and-upload.py:65-68 | From the pending months, the cursor ends at the start of their articles. |
| Uploader.ArchivesTextProcessor.StartDay | cloudsearch/cloudsearch-process-and-upload.py:69-74 | From the pending days, the cursor ends at the start of their articles. |
| Uploader.ArchivesTextProcessor.GetCurrentPath | cloudsearch/cloudsearch-process-and-upload.py:82-92 | With a log call that returns: a path is returned exactly for the four known levels; any other level gives none. Each level's path is its directory: the year, month and day directories, and the day directory plus the current file name. |
| Uploader.ArchivesTextProcessor.GetCurrentPathAsWritten | cloudsearch/cloudsearch-process-and-upload.py:82-92 | As written: `NameError` exactly for a level that `GetCurrentPath` does not know, and otherwise the same path. |
| Uploader.ArchivesTextProcessor.SetMonthsLeftInYear | cloudsearch/cloudsearch-process-and-upload.py:94-103 | The months list becomes the current year's months: its numeric entries, converted and sorted (see Walk.MonthsListing). |
| Uploader.ArchivesTextProcessor.SetDaysLeftInMonth | cloudsearch/cloudsearch-process-and-upload.py:105-114 | The days list becomes the current month's days: its numeric entries, converted and sorted (see Walk.DaysListing). |
| Uploader.ArchivesTextProcessor.SetArticlesLeftInDay | cloudsearch/cloudsearch-process-and-upload.py:116-125 | The articles list becomes the current day's listing, sorted by name (see Walk.ArticlesListing). |
| Uploader.ArchivesTextProcessor.MoveToNextYear | cloudsearch/cloudsearch-process-and-upload.py:128-135 | Returns `-1` exactly when no year is left, and then nothing changes. Otherwise it returns `1`, the current year is the last one left, and that year is removed. |
| Uploader.ArchivesTextProcessor.MoveToNextYearAsWritten | cloudsearch/cloudsearch-process-and-upload.py:128-135 | As written: never returns `-1`. It raises `NameError` exactly when no year is left, changing nothing; otherwise it returns `1` and takes the last year left. |
| Uploader.ArchivesTextProcessor.MoveToNextMonth | cloudsearch/cloudsearch-process-and-upload.py:138-144 | Returns `-1` exactly when no (year, month) slot is pending, with the year and month lists then empty. Otherwise the current slot is the first pending one and the pending slots lose exactly it. Months still to be listed stay listable. |
| Uploader.ArchivesTextProcessor.NextYearMonths | cloudsearch/cloudsearch-process-and-upload.py:139-142 | One pass of the refill loop. It either reports the end, with nothing pending and the lists empty, or moves to the next year with the pending slots unchanged and fewer years left. |
| Uploader.ArchivesTextProcessor.MoveToNextDay | cloudsearch/cloudsearch-process-and-upload.py:147-153 | Returns `-1` exactly when no day slot is pending, with the lists then empty. Otherwise the current day is the first pending slot, the pending slots lose exactly it, and its directory is listable. |
| Uploader.ArchivesTextProcessor.NextMonthDays | cloudsearch/cloudsearch-process-and-upload.py:148-151 | One pass of the refill loop: either the end is reported, or the pending day slots are unchanged while fewer month slots are pending. |
| Uploader.ArchivesTextProcessor.MoveToNextArticle | cloudsearch/cloudsearch-process-and-upload.py:155-161 | Returns `-1` exactly when no article is pending, with all four lists then empty. Otherwise the current article's location is the first pending one, and the pending articles lose exactly it. |
| Uploader.ArchivesTextProcessor.MoveToNextArticleAsWritten | cloudsearch/cloudsearch-process-and-upload.py:155-161 | As written: never returns `-1`. It raises `NameError` exactly when no article is pending; otherwise it returns `1` and visits the first pending location, which the pending articles lose. |
| Uploader.ArchivesTextProcessor.NextDayArticles | cloudsearch/cloudsearch-process-and-upload.py:156-159 | One pass of the refill loop: either the end is reported, or the pending articles are unchanged while fewer day slots are pending. |
| Uploader.ArchivesTextProcessor.PopArticle | cloudsearch/cloudsearch-process-and-upload.py:160-161 | Popping the last name of the day visits the first pending location and removes only it from the pending articles. |
| Uploader.ArchivesTextProcessor.ArticlesRefilled | cloudsearch/cloudsearch-process-and-upload.py:156-159 | Moving to the next pending day and listing its articles leaves the pending articles unchanged. |
| Uploader.ArchivesTextProcessor.GetCurrentPublishDate | cloudsearch/cloudsearch-process-and-upload.py:166-167 | The stamp of the cursor's date, whose shape Layout.PublishDateShape states. |
| Uploader.ArchivesTextProcessor.GetCurrentArticleData | cloudsearch/cloudsearch-process-and-upload.py:169-212 | With sanity checks that only log: the record built from the current article file's text, its name and the cursor's stamp is `ArticleRecord` of them. The byline is split by the vocabulary scan method. |
| Uploader.ArchivesTextProcessor.GetCurrentArticleDataAsWritten | cloudsearch/cloudsearch-process-and-upload.py:169-212 | As written: `NameError` exactly when line 0, 1 or 2 lacks its `#`, `##` or `###` marker; otherwise the same record as `GetCurrentArticleData`. |
| Uploader.NumericEntries | cloudsearch/cloudsearch-process-and-upload.py:97-101 | The append loop keeps exactly the names `int()` accepts, converted, in listing order. |
| Uploader.AllEntries | cloudsearch/cloudsearch-process-and-upload.py:119-123 | The append loop keeps every name, in order: `append` never raises. |
| Uploader.ArticleRecordHeadings | cloudsearch/cloudsearch-process-and-upload.py:183-184 | Title and subtitle are the words of lines 0 and 1 after their first 2 and 3 characters (the markers), joined by one plain space each: every whitespace run between two words becomes exactly one space, and none is kept at either end. |
| Uploader.ArticleRecordByline | cloudsearch/cloudsearch-process-and-upload.py:185-194 | The author title is a vocabulary entry. The author begins the cleaned-up byline, and a recognised title occurs in the upper-cased byline right where the author ends. |
| Uploader.ArticleRecordText | cloudsearch/cloudsearch-process-and-upload.py:196-197 | The body is lines 3 onward joined without separators, with only the whitespace at either end taken off (`StrippedFrom`): visible characters and inner whitespace are kept as they were. The stamp is the one given. |
| Uploader.ArticleRecordName | cloudsearch/cloudsearch-process-and-upload.py:199-201 | The number and the type, joined by a dot, begin the file name, and neither holds a dot. After them comes the end of the name or a second dot, so the type is the whole second dot-separated part. |
| Bylines.FirstFound | cloudsearch/cloudsearch-process-and-upload.py:189-191 | The index of the first vocabulary entry, in list order, that `find` locates past index 0; every entry before it is absent or found at 0. |
| Bylines.SplitAtTitle | cloudsearch/cloudsearch-process-and-upload.py:187-194 | The title is `""` exactly when no entry is found past index 0, and the author is then the whole byline. Otherwise the title is the first such entry, and the author is the byline before its first occurrence, trailing space kept. |
| Bylines.AuthorTitleSplit | cloudsearch/cloudsearch-process-and-upload.py:187-194 | The split over the upload script's vocabulary: the title is always a member of it, with the same characterisation as `SplitAtTitle`. |
| Bylines.SplitAuthorTitle | cloudsearch/cloudsearch-process-and-upload.py:187-194 | The `for … break` scan returns exactly `SplitAtTitle`. |
| Bylines.AuthorBeforeTitle | cloudsearch/cloudsearch-process-and-upload.py:190-193 | The author is a prefix of the byline. A recognised title is non-empty author text followed, in the upper-cased byline, by the title. |
| Bylines.LowercaseTitlesNeverChosen | cloudsearch/cloudsearch-process-and-upload.py:25 | The chosen title has no lowercase letter, so `'ASSU President'` and `'ASSU Parlimentarian'` are never chosen. |
| Bylines.EarlierTitleInside | cloudsearch/cloudsearch-process-and-upload.py:189-194 | When the chosen entry contains an earlier entry, that earlier entry was found only at index 0. |
| Bylines.ShadowedTitles | cloudsearch/cloudsearch-process-and-upload.py:24-29 | Two groups of entries are shadowed by earlier ones. `'STAFF FOOTBALL WRITERS'` and `'EDITORIAL STAFF'` are chosen only when the upper-cased byline starts with `STAFF`, and `'GUEST COLUMNISTS'` only when it starts with `GUEST COLUMNIST`. The second `'CONTRIBUTING WRITER'` is never chosen. |
| Bylines.LowercaseEntries | cloudsearch/cloudsearch-process-and-upload.py:25 | Entries 10 and 11 of the vocabulary contain lowercase letters. |
| Bylines.RepeatedEntry | cloudsearch/cloudsearch-process-and-upload.py:23-29 | Entry 31 repeats entry 4. |
| Walk.MonthsListing | cloudsearch/cloudsearch-process-and-upload.py:94-103 | A year's months ascend, and a number is among them exactly when some entry of the year directory parses to it. |
| Walk.DaysListing | cloudsearch/cloudsearch-process-and-upload.py:105-114 | A month's days ascend, and a number is among them exactly when some entry of the month directory parses to it. |
| Walk.ArticlesListing | cloudsearch/cloudsearch-process-and-upload.py:116-125 | A day's articles are sorted by name and are a permutation of the directory listing. |
| Walk.PopMonthsLast | cloudsearch/cloudsearch-process-and-upload.py:143 | `pop()` from a year's months takes the first pending month slot. |
| Walk.PopDaysLast | cloudsearch/cloudsearch-process-and-upload.py:152 | `pop()` from a month's days takes the first pending day slot. |
| Walk.PopArticlesLast | cloudsearch/cloudsearch-process-and-upload.py:160 | `pop()` from a day's names takes the first pending location. |
| Walk.RefillMonths | cloudsearch/cloudsearch-process-and-upload.py:139-142 | Refilling an empty year from the last year left does not change the pending month slots. |
| Walk.RefillDays | cloudsearch/cloudsearch-process-and-upload.py:148-151 | Refilling an empty month from the next pending month does not change the pending day slots. |
| Walk.RefillArticles | cloudsearch/cloudsearch-process-and-upload.py:156-159 | Refilling an empty day from the next pending day does not change the pending articles. |
| Walk.YearRangeHas | cloudsearch/cloudsearch-process-and-upload.py:60 | `list(range(start, end))` holds exactly the years `start <= y < end`. |
| Walk.TraversalHas | cloudsearch/cloudsearch-process-and-upload.py:127-161 | Coverage: a location is visited exactly when its year is in `[start, end)`, its month and day are numeric entries of their parent directories, and its name is in the day's listing. |
| Walk.TraversalOrdered | cloudsearch/cloudsearch-process-and-upload.py:127-161 | When no directory lists two spellings of one number, the visit order follows `VisitedBefore`, and no location is visited twice. `VisitedBefore` puts newer years first, then later months and days, then larger names. |
| Walk.YearsNewestFirst | cloudsearch/cloudsearch-process-and-upload.py:128-144 | For ascending years, the articles of all of them come newest year first, and each belongs to one of those years. |
| Walk.TraversalNewestYearFirst | cloudsearch/cloudsearch-process-and-upload.py:128-135 | Whatever the directories hold, years are visited from `end - 1` down to `start`, and each visited year lies in `[start, end)`. |
| Walk.MonthsAscending | cloudsearch/cloudsearch-process-and-upload.py:102 | Without two spellings of one number, a year's months strictly ascend, so popping them strictly descends. |
| Walk.DaysAscending | cloudsearch/cloudsearch-process-and-upload.py:113 | The same for a month's days. |
| Walk.ArticlesAscending | cloudsearch/cloudsearch-process-and-upload.py:124 | Names never listed twice strictly ascend after sorting. |
| Layout.DirsNest | cloudsearch/cloudsearch-process-and-upload.py:84-88 | The day directory is the base plus the date's three components. The year directory is a proper prefix of the month directory, which is a proper prefix of the day directory. |
| Layout.DayDirInjective | cloudsearch/cloudsearch-process-and-upload.py:88 | Two dates with the same day directory under one base are the same date. |
| Layout.ComponentNoSlash | cloudsearch/cloudsearch-process-and-upload.py:84-88 | A zero-filled component never contains `/`. |
| Layout.PublishDateShape | cloudsearch/cloudsearch-process-and-upload.py:166-167 | The stamp ends in `T12:00:00Z` and is at least 20 characters; padding never truncates. For a year below 10000 and a month and day below 100 it has exactly 20 characters, dashes at 4 and 7, and fields that `int()` reads back as the date. |
| PyInt.ParseZFill | cloudsearch/cloudsearch-process-and-upload.py:84-88 | `int(str(n).zfill(w)) == n` for every integer `n` and width `w`. |
| PyStr.Strip | cloudsearch/cloudsearch-process-and-upload.py:197 | `strip()` is empty exactly for all-whitespace text. Otherwise it is the slice between the leading and trailing whitespace runs, with no whitespace at either end. |
| PyStr.StripPadded | cloudsearch/process-archives-text.py:142-148 | `strip()` takes off only padding: the text is whitespace, then the result, then whitespace, and the result has no whitespace at either end. |
| PyStr.StrippedUnique | cloudsearch/process-archives-text.py:142-148 | Only one string is the text with its padding taken off, and it is `strip()`'s result, so `StrippedFrom` pins each stripped field exactly. |
| PyStr.StripKeepsText | cloudsearch/cloudsearch-process-and-upload.py:197 | Stripping keeps every visible character, in order. |
| PyStr.NormalizeShape | cloudsearch/cloudsearch-process-and-upload.py:183-185 | `re.sub('\s+', ' ', s.strip())` has no whitespace at either end, and its only whitespace is single plain spaces. |
| PyStr.NormalizeKeepsText | cloudsearch/cloudsearch-process-and-upload.py:183-185 | The clean-up keeps every visible character, in order. |
| PyStr.NormalizeIdempotent | cloudsearch/cloudsearch-process-and-upload.py:183-185 | Cleaning up twice gives the same as once. |
| PyStr.Words | cloudsearch/cloudsearch-process-and-upload.py:183-185 | The words of a text, its maximal runs of visible characters in order, are each non-empty and hold no whitespace. |
| PyStr.NormalizeWords | cloudsearch/cloudsearch-process-and-upload.py:183-185 | `re.sub('\s+', ' ', s.strip())` is the words of `s` joined by one plain space each. |
| PyStr.CollapseWords | cloudsearch/cloudsearch-process-and-upload.py:183-185 | On text with no whitespace at either end, `re.sub('\s+', ' ', …)` joins its words with one space each. |
| PyStr.WordsAppendSpaces | cloudsearch/cloudsearch-process-and-upload.py:183-185 | Whitespace after a text does not change its words. |
| PyStr.NormalizeCleans | cloudsearch/cloudsearch-process-and-upload.py:183-185 | The clean-up is single-spaced, has no whitespace at either end, and keeps every visible character in order. |
| PyInt.IntStrip | cloudsearch/cloudsearch-process-and-upload.py:99 | The text `int()` parses is the input without the whitespace `int()` skips at either end, and starts and ends with a character it does not skip. |
| PyInt.ParseIntRejects | cloudsearch/cloudsearch-process-and-upload.py:99-101 | A name holding a character that is not a digit, a sign, an underscore or whitespace `int()` skips is not a number, so the loop skips it. |
| PyInt.SeparatorsRejected | cloudsearch/cloudsearch-process-and-upload.py:99-101 | A name holding one of U+001C to U+001F is not a number, although `str.isspace()` accepts those characters. |
| PyStr.Upper | cloudsearch/cloudsearch-process-and-upload.py:190 | `upper()` keeps the length, leaves no lowercase letter and changes nothing else. |
| PyStr.Find | cloudsearch/cloudsearch-process-and-upload.py:190 | `find` is `-1` exactly when the text does not occur. Otherwise it is the lowest index where the text occurs. |
| PyStr.Split | cloudsearch/cloudsearch-process-and-upload.py:199 | `split(sep)` has at least one part, and no part holds the separator. |
| PyStr.JoinSplit | cloudsearch/cloudsearch-process-and-upload.py:199 | Joining the parts of a split with the separator gives the text back. |
| PyStr.SplitHead | cloudsearch/cloudsearch-process-and-upload.py:199-201 | For a name with a dot, part 0 is the text before the first dot, and part 1 the text between the first and second dots. |
| PyStr.SplitLines | cloudsearch/cloudsearch-process-and-upload.py:172 | No line holds a line break, and there are no lines exactly for empty text. |
| PyStr.SplitLinesJoin | cloudsearch/cloudsearch-process-and-upload.py:172 | The lines joined with `'\n'` give the text back, up to a final line break. |
| PyStr.SliceFrom | cloudsearch/cloudsearch-process-and-upload.py:183-185 | `s[k:]` has `max(0, len(s) - k)` characters, those of `s` from index `k`. |
| Sorting.Sort | cloudsearch/cloudsearch-process-and-upload.py:102 | `sort()` returns a permutation of the list. |
| Sorting.SortSorted | cloudsearch/cloudsearch-process-and-upload.py:102 | Under a total preorder, the sorted list is in order. |
| ArchivesText.CheckDateInts | cloudsearch/process-archives-text.py:43-50 | `checkDate` holds exactly when year, month and day are all `int`s. |
| ArchivesText.CreateArticleFields | cloudsearch/process-archives-text.py:55-79 | A document is returned exactly when no check fails. On failure, the check reported failed and every earlier check passed: type, then author title, then number, then date. On success the eight fields are the inputs, the number an `int`, and the date rendered as the zero-padded stamp. |
| ArchivesText.CreateArticleFieldsDate | cloudsearch/process-archives-text.py:73 | For valid inputs and a date within four and two digits, the stamp has 20 characters and its fields read back as the date. |
| ArchivesText.Convert | cloudsearch/process-archives-text.py:84-87 | An entry becomes an `int` only when `int()` accepts it, with that value; otherwise it stays unchanged. |
| ArchivesText.ConvertAll | cloudsearch/process-archives-text.py:83-87 | The converted listing has the same length, and each entry is converted where it stands. |
| ArchivesText.ConvertInPlace | cloudsearch/process-archives-text.py:83-87 | The index loop overwrites the array with its converted contents. |
| ArchivesText.Names | cloudsearch/process-archives-text.py:82 | The listing as strings, same length and order. |
| ArchivesText.ListConverted | cloudsearch/process-archives-text.py:82-88 | A fresh array holding the directory's listing, converted. |
| ArchivesText.GetArchivesYears | cloudsearch/process-archives-text.py:81-88 | The base directory's listing, converted in place: not filtered, not sorted. |
| ArchivesText.GetArchivesMonths | cloudsearch/process-archives-text.py:90-97 | The year directory's listing, converted in place. |
| ArchivesText.GetArchivesDays | cloudsearch/process-archives-text.py:99-106 | The month directory's listing, converted in place. |
| ArchivesText.GetArchivesArticleFilenames | cloudsearch/process-archives-text.py:108-115 | The day directory's listing, converted in place. |
| ArchivesText.DayPathSameDirectory | cloudsearch/process-archives-text.py:109 | The day path written without a final `/` names the same directory as the upload script's, with the same listing. |
| ArchivesText.ConvertedNumbers | cloudsearch/process-archives-text.py:83-87 | The `int`s this script leaves in a listing are exactly the numbers the upload script keeps from it, in listing order. |
| ArchivesText.ComponentConverts | cloudsearch/process-archives-text.py:91-94 | A zero-filled date component is converted back to its number. |
| ArchivesText.GetArticleDataHeadings | cloudsearch/process-archives-text.py:130-148 | Title, subtitle and author are lines 0, 1 and 2 after their first 2, 3 and 4 characters, with only the whitespace at either end taken off (`StrippedFrom`): no inner whitespace is collapsed. |
| ArchivesText.GetArticleDataBody | cloudsearch/process-archives-text.py:133-149 | The body is lines 3 onward joined without separators, and the type the file name's second dot-separated part, each with only the whitespace at either end taken off (`StrippedFrom`). The author title is empty, and the date is the one given. |
| ArchivesText.ArticleNumberDigits | cloudsearch/process-archives-text.py:138-139 | The number is the value of its digit run, and zero-filled to the run's width it gives the run back: only leading zeros are lost. |
| ArchivesText.NumberPartPlace | cloudsearch/process-archives-text.py:136-139 | The run is non-empty digits in the text before the first `.`, with no digit before it and none right after it: the first maximal digit run. |
| ArchivesText.CreateFromDataChecks | cloudsearch/process-archives-text.py:55-68 | With the author title `''` and an `int` number, only the type and date checks can fail, and a document is produced exactly when both pass. |
| ArchivesText.ArticleDataAccepted | cloudsearch/process-archives-text.py:120-151 | `create_article_fields(**get_article_data(…))` succeeds exactly when the stripped type is valid and the date's parts are `int`s. On success the stamp is that date's and the author title is `''`. |
| ArchivesText.ArticlePathAgrees | cloudsearch/process-archives-text.py:121 | For a date of numbers, the file opened is the upload script's day directory plus the name. |
| ArchivesText.BothScriptsAgree | cloudsearch/process-archives-text.py:130-149 | Read by both scripts, one file gives the same title and subtitle up to collapsed whitespace runs and the same body. Its type differs only by surrounding whitespace, and an all-digit number part is read as the same number. |

## Left out

- The search-index client (`boto3`, the endpoint) is left out: no upload is ever made.
  The batch-size constants and `currentSizeInBytes` are declared but never used.
- Every `print`, `pretty_print_*`, `tests()`, `main()` and the demo drivers are left
  out as I/O. So is the file `Logger` opens; its `log` is modelled only by the
  `NameError` it raises.
- In the text script the line-marker checks only print, and the record is built either
  way, so they are not modelled there. In the upload script they raise `NameError`
  (Uploader.ArchivesTextProcessor.GetCurrentArticleDataAsWritten).
- `os.listdir` is a snapshot parameter: a map from a directory path without trailing
  `/` to its entry names. `open().read()` is a file-contents parameter. The order
  `os.listdir` returns is the snapshot's order, and nothing changes the snapshot while
  a cursor runs.
- The upload script's archive path and the text script's `ARCHIVES_TEXT_PATH` are a
  `base` parameter.
- Python's `int()` is modelled as: surrounding whitespace, an optional sign, and ASCII
  digits with single `_` separators. The whitespace it skips is that of
  `str.isspace()` without U+001C to U+001F. Unicode digits are not modelled, here
  nor in the text script's `re.findall(r'\d+', …)`, which also matches any Unicode
  decimal digit; `ArchivesText.FirstDigitRun` takes ASCII digits only.
- `splitlines()` breaks at `'\n'` only. `upper()` changes only ASCII letters. The
  whitespace of `strip()` and of the regular expression `\s` is the code points
  `str.isspace()` accepts.
- Crash paths other than the `NameError` of the log calls become preconditions:
  - an unlistable directory, as readability predicates over the snapshot;
  - a file with fewer than 3 lines;
  - a file name without `.`;
  - a number part without a digit;
  - a numeric file name in the text script, which its listing turns into an `int`;
  - the article path while no article is current, where `get_current_path` adds `None`
    to a string and raises `TypeError`.
- Uploader.ArchivesTextProcessor.constructor: requires every year of the range to be
  readable, and a first day to exist. Without a first day, `__init__` calls
  `move_to_next_year` with no year left and raises `NameError`. When the range has a
  day but no article, `__init__` raises `NameError` the same way; the model instead
  ends with no current article.
- Uploader.ArchivesTextProcessor.StartYear: where no article is pending, the script
  raises `NameError`; the model ends with no current article.
- Uploader.ArchivesTextProcessor.StartMonth: where no article is pending, the script
  raises `NameError`; the model ends with no current article.
- Uploader.ArchivesTextProcessor.StartDay: where no article is pending, the script
  raises `NameError`; the model ends with no current article.
- Uploader.ArchivesTextProcessor.MoveToNextYear: returns `-1` where the script raises
  `NameError`, as MoveToNextYearAsWritten states.
- Uploader.ArchivesTextProcessor.MoveToNextMonth: returns `-1` where the script raises
  `NameError` inside `move_to_next_year`.
- Uploader.ArchivesTextProcessor.NextYearMonths: reports the end where the script
  raises `NameError` inside `move_to_next_year`.
- Uploader.ArchivesTextProcessor.MoveToNextDay: returns `-1` where the script raises
  `NameError` inside `move_to_next_year`.
- Uploader.ArchivesTextProcessor.NextMonthDays: reports the end where the script
  raises `NameError` inside `move_to_next_year`.
- Uploader.ArchivesTextProcessor.MoveToNextArticle: returns `-1` where the script raises
  `NameError`, as MoveToNextArticleAsWritten states.
- Uploader.ArchivesTextProcessor.NextDayArticles: reports the end where the script
  raises `NameError` inside `move_to_next_year`.
- Uploader.ArchivesTextProcessor.GetCurrentPath: returns `None` for an unknown level,
  where the script raises `NameError` from its log call, as GetCurrentPathAsWritten
  states.
- Uploader.ArchivesTextProcessor.GetCurrentArticleData: builds the record even when a
  line marker is missing, where the script raises `NameError`, as
  GetCurrentArticleDataAsWritten states.
- The `None` placeholders of `__init__` are the fields' initial values (`0`, `[]`,
  `None`).
- Walk.TraversalOrdered: requires the `UniqueNumbers` and `ListingsDistinct`
  hypotheses. A year listing both `7` and `07` has its month `7` visited twice, and
  Walk.TraversalHas and Walk.TraversalNewestYearFirst hold without them.
- Author split: for a byline `"Jane Doe Staff Writer"` the author is `"Jane Doe "`,
  with the trailing space. The code keeps it, and the model follows the code.
- A Python `bool` is also an `int`; `Scalar` has no boolean, so `checkDate` and
  `create_article_fields` never see one.
- Helpers that have no source line of their own factor the loops and phases into
  smaller steps. `NextYearMonths`, `NextMonthDays` and `NextDayArticles` are loop bodies.
  `StartYear`, `StartMonth` and `StartDay` are phases of `__init__`.

- ArchivesText.GetArchivesMonths: takes the year as an `int`. The script also accepts
  a name that `get_archives_years` left as a string, and zero-fills that string.
- ArchivesText.GetArchivesDays: takes the year and month as `int`s, where the script
  also accepts unconverted names.
- ArchivesText.GetArchivesArticleFilenames: takes the date parts as `int`s, where the
  script also accepts unconverted names.
- ArchivesText.CreateArticleFields: takes all eight fields. The Python defaults
  (`title`, `subtitle`, `author` and `authorTitle` are `""` when not passed) are
  left out, because the only caller passes every field.

## Findings

| source | as written | input that shows it | evidently intended | confidence | as-written member | corrected member |
|---|---|---|---|---|---|---|
| cloudsearch/cloudsearch-process-and-upload.py:128-135 | `self.logger.log("done")` runs `Logger.log`, which writes to an unbound `f` (line 40) and raises `NameError` | `years_left == []` | log the end and return `-1` | high, not executed | Uploader.ArchivesTextProcessor.MoveToNextYearAsWritten | Uploader.ArchivesTextProcessor.MoveToNextYear |
| cloudsearch/cloudsearch-process-and-upload.py:155-161 | the traversal ends with the `NameError` of `move_to_next_year`, never with `-1` | a cursor with no article pending | return `-1` once every article has been visited | high, not executed | Uploader.ArchivesTextProcessor.MoveToNextArticleAsWritten | Uploader.ArchivesTextProcessor.MoveToNextArticle |
| cloudsearch/cloudsearch-process-and-upload.py:82-92 | an unknown level is logged, and the log call raises `NameError` | `level == "week"` | log the level and return `None` | high, not executed | Uploader.ArchivesTextProcessor.GetCurrentPathAsWritten | Uploader.ArchivesTextProcessor.GetCurrentPath |
| cloudsearch/cloudsearch-process-and-upload.py:175-180 | a missing line marker is logged, and the log call raises `NameError` | a first line `"Title"` without `#` | log the line and build the record anyway | high, not executed | Uploader.ArchivesTextProcessor.GetCurrentArticleDataAsWritten | Uploader.ArchivesTextProcessor.GetCurrentArticleData |
