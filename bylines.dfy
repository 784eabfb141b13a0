/**
 * The upload script's author-title recognition: the byline is scanned for each
 * entry of a fixed vocabulary in list order, and the first entry found after the
 * start of the (upper-cased) byline splits it into author and title.
 */
module Bylines {
  import opened PyStr

  /** The recognised author titles, in the order they are tried. Two entries contain
      lowercase letters and one entry appears twice. */
  const VALID_AUTHOR_TITLES: seq<string> :=
    ["", "SENIOR STAFF WRITER", "STAFF WRITER", "DESK EDITOR", "CONTRIBUTING WRITER"]
    + ["MANAGING EDITOR", "EDITOR IN CHIEF", "DEPUTY EDITOR", "EXECUTIVE EDITOR", "STAFF"]
    + ["ASSU President", "ASSU Parlimentarian", "STAFF FOOTBALL WRITERS", "FASHION COLUMNIST"]
    + ["FOOTBALL EDITOR", "ARTS EDITOR", "FOOD EDITOR", "FOOD DINING EDITOR", "OPINIONS DESK"]
    + ["FOOD DRUNK EDITOR", "FELLOW", "DAILY INTERN", "CONTRIBUTING EDITOR", "MANAGING WRITER"]
    + ["GUEST COLUMNIST", "SEX GODDESS", "GUEST COLUMNISTS", "EDITORIAL STAKE", "CONTRIBUTING YANKEE"]
    + ["SPECIAL CONTRIBUTOR", "EDITORIAL BOARD", "CONTRIBUTING WRITER", "EDITORIAL STAFF", "FILM CRITIC"]
    + ["HEALTH EDITOR", "ASSHOLE", "INTERMISSION", "NEWS EDITOR", "CLASS PRESIDENT", "ASSOCIATED PRESS"]
    + ["AP SPORTS WRITER", "AP BASEBALL WRITER", "WEEKLY COLUMNIST", "HEALTH COLUMNIST", "ASSOCIATED EDITOR"]
    + ["ASSOCIATE EDITOR", "SPORTS EDITOR", "EDITOR THE DAILY"]

  /** Facts about single vocabulary entries that the lemmas below use. */
  lemma VocabularyStart()
    ensures |VALID_AUTHOR_TITLES| == 48 && VALID_AUTHOR_TITLES[0] == ""
  {
  }

  lemma LowercaseEntries()
    ensures |VALID_AUTHOR_TITLES| == 48
    ensures IsLower(VALID_AUTHOR_TITLES[10][6]) && IsLower(VALID_AUTHOR_TITLES[11][6])
  {
  }

  lemma NestedEntries()
    ensures |VALID_AUTHOR_TITLES| == 48
    ensures OccursAt(VALID_AUTHOR_TITLES[12], VALID_AUTHOR_TITLES[9], 0)
    ensures OccursAt(VALID_AUTHOR_TITLES[32], VALID_AUTHOR_TITLES[9], 10)
    ensures OccursAt(VALID_AUTHOR_TITLES[26], VALID_AUTHOR_TITLES[24], 0)
    ensures VALID_AUTHOR_TITLES[9] == "STAFF" && VALID_AUTHOR_TITLES[24] == "GUEST COLUMNIST"
  {
  }

  lemma RepeatedEntry()
    ensures |VALID_AUTHOR_TITLES| == 48
    ensures VALID_AUTHOR_TITLES[31] == VALID_AUTHOR_TITLES[4]
  {
  }

  /** A byline split into the author's name and their title (`""` when none). */
  datatype Attribution = Attribution(author: string, authorTitle: string)

  /** The index of the first title from `k` on that occurs in `upper` past its start,
      or `|titles|` when none does. */
  function FirstFound(upper: string, titles: seq<string>, k: nat): (i: nat)
    requires k <= |titles|
    ensures k <= i <= |titles|
    ensures forall j :: k <= j < i ==> Find(upper, titles[j]) <= 0
    ensures i < |titles| ==> Find(upper, titles[i]) > 0
    decreases |titles| - k
  {
    if k == |titles| then k
    else if Find(upper, titles[k]) > 0 then k
    else FirstFound(upper, titles, k + 1)
  }

  /** The byline split at the first occurrence, past index 0, of the first of `titles`
      (in list order) found in the upper-cased byline. */
  function SplitAtTitle(byline: string, titles: seq<string>): (a: Attribution)
    ensures a.authorTitle == "" || a.authorTitle in titles
    ensures a.authorTitle == "" <==> forall j :: 0 <= j < |titles| ==> Find(Upper(byline), titles[j]) <= 0
    ensures a.authorTitle == "" ==> a.author == byline
    ensures a.authorTitle != "" ==>
      var k := FirstFound(Upper(byline), titles, 0);
      var i := Find(Upper(byline), a.authorTitle);
      && k < |titles| && a.authorTitle == titles[k]
      && 0 < i && OccursAt(Upper(byline), a.authorTitle, i)
      && a.author == byline[..i]
  {
    var u := Upper(byline);
    var k := FirstFound(u, titles, 0);
    FindEmpty(u);
    if k == |titles| then Attribution(byline, "")
    else
      var i := Find(u, titles[k]);
      Attribution(byline[..i], titles[k])
  }

  /** How the upload script splits a cleaned-up byline. The title is a vocabulary
      entry; it is `""`, with the whole byline as author, exactly when no entry is found
      past the start; otherwise it is the first entry in list order that is, and the
      author is the byline before that occurrence, trailing space included. */
  function AuthorTitleSplit(byline: string): (a: Attribution)
    ensures a.authorTitle in VALID_AUTHOR_TITLES
    ensures a.authorTitle == "" <==>
      forall j :: 0 <= j < |VALID_AUTHOR_TITLES| ==> Find(Upper(byline), VALID_AUTHOR_TITLES[j]) <= 0
    ensures a.authorTitle == "" ==> a.author == byline
    ensures a.authorTitle != "" ==>
      var k := FirstFound(Upper(byline), VALID_AUTHOR_TITLES, 0);
      var i := Find(Upper(byline), a.authorTitle);
      && k < |VALID_AUTHOR_TITLES| && a.authorTitle == VALID_AUTHOR_TITLES[k]
      && 0 < i && OccursAt(Upper(byline), a.authorTitle, i)
      && a.author == byline[..i]
  {
    VocabularyStart();
    SplitAtTitle(byline, VALID_AUTHOR_TITLES)
  }

  /** The scan over the titles in list order, stopping at the first one found past
      index 0 of the upper-cased byline; the upload script runs it over
      `VALID_AUTHOR_TITLES`. */
  method SplitAuthorTitle(authorRaw: string, titles: seq<string>) returns (a: Attribution)
    ensures a == SplitAtTitle(authorRaw, titles)
  {
    var upper := Upper(authorRaw);
    var author := authorRaw;
    var authorTitle := "";
    for k := 0 to |titles|
      invariant FirstFound(upper, titles, 0) == FirstFound(upper, titles, k)
      invariant author == authorRaw && authorTitle == ""
    {
      var possibleTitle := titles[k];
      var titleIndex := Find(upper, possibleTitle);
      if titleIndex > 0 {
        authorTitle := possibleTitle;
        author := author[..titleIndex];
        return Attribution(author, authorTitle);
      }
    }
    a := Attribution(author, authorTitle);
  }

  /** The author begins the byline, and a recognised title occurs in the upper-cased
      byline right where the author ends. */
  lemma AuthorBeforeTitle(byline: string)
    ensures var a := AuthorTitleSplit(byline);
      && a.author <= byline
      && (a.authorTitle != "" ==> |a.author| > 0 && OccursAt(Upper(byline), a.authorTitle, |a.author|))
  {
    var a := AuthorTitleSplit(byline);
    if a.authorTitle != "" {
      var i := Find(Upper(byline), a.authorTitle);
      assert |a.author| == i;
    }
  }

  /** Entries with lowercase letters can never be chosen: the byline is upper-cased
      before the search, so `'ASSU President'` and `'ASSU Parlimentarian'` never match. */
  lemma LowercaseTitlesNeverChosen(byline: string)
    ensures var t := AuthorTitleSplit(byline).authorTitle;
      forall i :: 0 <= i < |t| ==> !IsLower(t[i])
    ensures AuthorTitleSplit(byline).authorTitle != VALID_AUTHOR_TITLES[10]
    ensures AuthorTitleSplit(byline).authorTitle != VALID_AUTHOR_TITLES[11]
  {
    ChosenTitleUpper(byline);
    NotLowercaseEntries(AuthorTitleSplit(byline).authorTitle);
  }

  lemma NotLowercaseEntries(t: string)
    requires forall k :: 0 <= k < |t| ==> !IsLower(t[k])
    ensures t != VALID_AUTHOR_TITLES[10] && t != VALID_AUTHOR_TITLES[11]
  {
    LowercaseEntries();
    NotLowercaseEntry(t, VALID_AUTHOR_TITLES[10], 6);
    NotLowercaseEntry(t, VALID_AUTHOR_TITLES[11], 6);
  }

  lemma ChosenTitleUpper(byline: string)
    ensures var t := AuthorTitleSplit(byline).authorTitle;
      forall i :: 0 <= i < |t| ==> !IsLower(t[i])
  {
    var t := AuthorTitleSplit(byline).authorTitle;
    if t != "" {
      FoundInUpper(byline, t, Find(Upper(byline), t));
    }
  }

  lemma NotLowercaseEntry(t: string, entry: string, i: nat)
    requires i < |entry| && IsLower(entry[i])
    requires forall k :: 0 <= k < |t| ==> !IsLower(t[k])
    ensures t != entry
  {
  }

  lemma EarlierTitleInside(upper: string, titles: seq<string>, j: nat, k: nat, offset: nat)
    requires j < k < |titles|
    requires OccursAt(titles[k], titles[j], offset)
    requires FirstFound(upper, titles, 0) == k
    ensures OccursAt(upper, titles[j], 0)
  {
    var outer, inner := titles[k], titles[j];
    var i := Find(upper, outer);
    assert OccursAt(upper, outer, i);
    forall t | 0 <= t < |inner|
      ensures upper[i + offset + t] == inner[t]
    {
      assert upper[i..i + |outer|][offset + t] == outer[offset + t];
      assert outer[offset..offset + |inner|][t] == inner[t];
    }
    assert upper[i + offset..i + offset + |inner|] == inner;
    assert OccursAt(upper, inner, i + offset);
    assert Find(upper, inner) <= 0;
  }

  /** Entries that contain an earlier entry decide only when that earlier entry is
      found at the very start of the byline: 'STAFF' (index 9) comes before 'STAFF
      FOOTBALL WRITERS' (12) and 'EDITORIAL STAFF' (32), 'GUEST COLUMNIST' (24) before
      'GUEST COLUMNISTS' (26); the second 'CONTRIBUTING WRITER' (31) never decides. */
  lemma ShadowedTitles(byline: string)
    ensures var k := FirstFound(Upper(byline), VALID_AUTHOR_TITLES, 0);
      && (k == 12 || k == 32 ==> OccursAt(Upper(byline), "STAFF", 0))
      && (k == 26 ==> OccursAt(Upper(byline), "GUEST COLUMNIST", 0))
      && k != 31
  {
    var u := Upper(byline);
    var k := FirstFound(u, VALID_AUTHOR_TITLES, 0);
    NestedEntries();
    RepeatedEntry();
    if k == 12 {
      EarlierTitleInside(u, VALID_AUTHOR_TITLES, 9, 12, 0);
    } else if k == 32 {
      EarlierTitleInside(u, VALID_AUTHOR_TITLES, 9, 32, 10);
    } else if k == 26 {
      EarlierTitleInside(u, VALID_AUTHOR_TITLES, 24, 26, 0);
    }
  }
}
