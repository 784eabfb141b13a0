/**
 * The archive on disk: `<base><yyyy>/<mm>/<dd>/<article file>`, the listing of each
 * directory, and the publish-date stamp both scripts build from a date.
 */
module Layout {
  import opened Wrappers
  import opened PyStr
  import opened PyInt

  /** A snapshot of the directories under the archive: each directory, named by its
      path without trailing '/', mapped to the names `os.listdir` returns for it. */
  type FileSystem = map<string, seq<string>>

  /** The directory a path names: trailing slashes do not change it. */
  function DirKey(path: string): (k: string)
    ensures |k| <= |path| && k == path[..|k|]
    ensures |k| <= 1 || k[|k| - 1] != '/'
    decreases |path|
  {
    if |path| > 1 && path[|path| - 1] == '/' then DirKey(path[..|path| - 1]) else path
  }

  /** `os.listdir(path)` succeeds. */
  predicate Listable(fs: FileSystem, path: string) {
    DirKey(path) in fs
  }

  /** `os.listdir(path)` for a directory that exists (and `[]` for one that does not,
      which no caller reaches: every listing requires `Listable`). */
  function Entries(fs: FileSystem, path: string): seq<string> {
    if Listable(fs, path) then fs[DirKey(path)] else []
  }

  /** The year, month and day path components: `str(n).zfill(w)`. */
  function Component(n: int, width: int): string {
    ZFill(IntToStr(n), width)
  }

  function YearDir(base: string, year: int): string {
    base + Component(year, 4) + "/"
  }

  function MonthDir(base: string, year: int, month: int): string {
    YearDir(base, year) + Component(month, 2) + "/"
  }

  function DayDir(base: string, year: int, month: int, day: int): string {
    MonthDir(base, year, month) + Component(day, 2) + "/"
  }

  /** The timestamp `yyyy-mm-ddT12:00:00Z` the search index is given for a date. */
  function PublishDate(year: int, month: int, day: int): string {
    Component(year, 4) + "-" + Component(month, 2) + "-" + Component(day, 2) + "T12:00:00Z"
  }

  /** A component holds digits and at most a leading sign, so never a '/'. */
  lemma ComponentDigits(n: int, width: int)
    ensures var c := Component(n, width);
      c != [] && forall i :: 0 <= i < |c| ==> IsDigit(c[i]) || (i == 0 && c[i] == '-')
  {
    var c := Component(n, width);
    if n < 0 {
      var d := NatToStr(-n);
      var k := if |d| + 1 >= width then 0 else width - |d| - 1;
      ZFillOfSigned(d, width);
      DecimalLeadingZeros(k, d);
      SignedDigits(Zeros(k) + d);
    } else {
      var d := NatToStr(n);
      var k := if |d| >= width then 0 else width - |d|;
      assert c == Zeros(k) + d;
      DecimalLeadingZeros(k, d);
    }
  }

  lemma SignedDigits(u: string)
    requires AllDigits(u)
    ensures forall i :: 0 <= i < |"-" + u| ==> IsDigit(("-" + u)[i]) || (i == 0 && ("-" + u)[i] == '-')
  {
    var c := "-" + u;
    forall i | 1 <= i < |c|
      ensures IsDigit(c[i])
    {
      assert c[i] == u[i - 1];
    }
  }

  lemma ComponentNoSlash(n: int, width: int)
    ensures '/' !in Component(n, width)
  {
    ComponentDigits(n, width);
  }

  lemma SplitAfter(a: string, rest: string, sep: char)
    requires sep !in a
    ensures Split(a + [sep] + rest, sep) == [a] + Split(rest, sep)
  {
    var s := a + [sep] + rest;
    assert s[|a|] == sep;
    assert s[..|a|] == a;
    assert s[|a| + 1..] == rest;
  }

  lemma SplitEmpty(sep: char)
    ensures Split("", sep) == [""]
  {
    assert IndexOf("", sep) == 0;
  }

  lemma SplitOne(c: string)
    requires '/' !in c
    ensures Split(c + "/", '/') == [c, ""]
  {
    SplitEmpty('/');
    SplitAfter(c, "", '/');
    assert c + ['/'] + "" == c + "/";
  }

  lemma SplitTwo(b: string, c: string)
    requires '/' !in b && '/' !in c
    ensures Split(b + "/" + (c + "/"), '/') == [b, c, ""]
  {
    SplitOne(c);
    SplitAfter(b, c + "/", '/');
  }

  lemma SplitThree(a: string, b: string, c: string)
    requires '/' !in a && '/' !in b && '/' !in c
    ensures Split(a + "/" + (b + "/" + (c + "/")), '/') == [a, b, c, ""]
  {
    SplitTwo(b, c);
    SplitAfter(a, b + "/" + (c + "/"), '/');
  }

  /** The part of a day directory below the base. */
  function DateDirs(year: int, month: int, day: int): string {
    Component(year, 4) + "/" + (Component(month, 2) + "/" + (Component(day, 2) + "/"))
  }

  /** Each level's directory lies inside the one above it. */
  lemma DirsNest(base: string, year: int, month: int, day: int)
    ensures DayDir(base, year, month, day) == base + DateDirs(year, month, day)
    ensures YearDir(base, year) < MonthDir(base, year, month) < DayDir(base, year, month, day)
  {
    PathsNest(base, Component(year, 4), Component(month, 2), Component(day, 2));
  }

  /** The nesting of the three directories, for any components. */
  lemma PathsNest(base: string, y: string, m: string, d: string)
    ensures base + y + "/" + m + "/" + d + "/" == base + (y + "/" + (m + "/" + (d + "/")))
    ensures base + y + "/" < base + y + "/" + m + "/" < base + y + "/" + m + "/" + d + "/"
  {
    var yd := base + y + "/";
    var md := yd + m + "/";
    assert md == yd + (m + "/");
    assert md + d + "/" == md + (d + "/");
    ProperPrefix(yd, m + "/");
    ProperPrefix(md, d + "/");
  }

  lemma ProperPrefix(a: string, b: string)
    requires b != []
    ensures a < a + b
  {
    assert (a + b)[..|a|] == a;
  }

  /** Different dates have different day directories under the same base, so the
      traversal never lists one directory for two dates. */
  lemma DayDirInjective(base: string, y1: int, m1: int, d1: int, y2: int, m2: int, d2: int)
    requires DayDir(base, y1, m1, d1) == DayDir(base, y2, m2, d2)
    ensures y1 == y2 && m1 == m2 && d1 == d2
  {
    DirsNest(base, y1, m1, d1);
    DirsNest(base, y2, m2, d2);
    var t1 := DateDirs(y1, m1, d1);
    var t2 := DateDirs(y2, m2, d2);
    assert t1 == (base + t1)[|base|..];
    assert t2 == (base + t2)[|base|..];
    ComponentNoSlash(y1, 4); ComponentNoSlash(m1, 2); ComponentNoSlash(d1, 2);
    ComponentNoSlash(y2, 4); ComponentNoSlash(m2, 2); ComponentNoSlash(d2, 2);
    SplitThree(Component(y1, 4), Component(m1, 2), Component(d1, 2));
    SplitThree(Component(y2, 4), Component(m2, 2), Component(d2, 2));
    ParseZFill(y1, 4); ParseZFill(m1, 2); ParseZFill(d1, 2);
    ParseZFill(y2, 4); ParseZFill(m2, 2); ParseZFill(d2, 2);
  }

  lemma StampFields(a: string, b: string, c: string)
    requires |a| == 4 && |b| == 2 && |c| == 2
    ensures var s := a + "-" + b + "-" + c + "T12:00:00Z";
      |s| == 20 && s[4] == '-' && s[7] == '-' && s[10..] == "T12:00:00Z"
      && s[..4] == a && s[5..7] == b && s[8..10] == c
  {
  }

  /** The stamp always ends in `T12:00:00Z`; for a four-digit year and two-digit month
      and day it has the fixed shape `yyyy-mm-ddT12:00:00Z`, and its fields read back
      as the date. */
  lemma PublishDateShape(year: int, month: int, day: int)
    ensures var s := PublishDate(year, month, day);
      |s| >= 20 && s[|s| - 10..] == "T12:00:00Z"
    ensures 0 <= year < 10000 && 0 <= month < 100 && 0 <= day < 100 ==>
      var s := PublishDate(year, month, day);
      && |s| == 20 && s[4] == '-' && s[7] == '-'
      && ParseInt(s[..4]) == Some(year)
      && ParseInt(s[5..7]) == Some(month)
      && ParseInt(s[8..10]) == Some(day)
  {
    if 0 <= year < 10000 && 0 <= month < 100 && 0 <= day < 100 {
      assert Pow10(2) == 100;
      assert Pow10(4) == 10000;
      ZFillExact(year, 4);
      ZFillExact(month, 2);
      ZFillExact(day, 2);
      ParseZFill(year, 4);
      ParseZFill(month, 2);
      ParseZFill(day, 2);
      StampFields(Component(year, 4), Component(month, 2), Component(day, 2));
    }
  }
}
