/**
 * The parts of Python's `str` that the archive scripts rely on, on `seq<char>`:
 * whitespace, `strip()`, `re.sub('\s+', ' ', ...)`, ASCII `upper()`, `find()`,
 * `split(sep)`, `splitlines()` and `sep.join(...)`.
 */
module PyStr {

  /** The code points for which Python's `str.isspace()` holds; the regular
      expression class `\s` matches the same set on `str` patterns. */
  predicate IsSpace(c: char) {
    ('\t' <= c <= '\r') || ('\U{1C}' <= c <= ' ') || c == '\U{85}' || c == '\U{A0}'
    || c == '\U{1680}' || ('\U{2000}' <= c <= '\U{200A}') || c == '\U{2028}' || c == '\U{2029}'
    || c == '\U{202F}' || c == '\U{205F}' || c == '\U{3000}'
  }

  predicate AllSpace(s: string) {
    forall i :: 0 <= i < |s| ==> IsSpace(s[i])
  }

  /** Length of the run of whitespace that starts `s`. */
  function LeadingSpaces(s: string): (n: nat)
    ensures n <= |s| && AllSpace(s[..n])
    ensures n < |s| ==> !IsSpace(s[n])
  {
    if s == [] || !IsSpace(s[0]) then 0
    else
      var m := LeadingSpaces(s[1..]);
      assert s[..1 + m] == [s[0]] + s[1..][..m];
      1 + m
  }

  /** Length of the run of whitespace that ends `s`. */
  function TrailingSpaces(s: string): (n: nat)
    ensures n <= |s|
    ensures forall i :: |s| - n <= i < |s| ==> IsSpace(s[i])
    ensures n < |s| ==> !IsSpace(s[|s| - n - 1])
  {
    if s == [] || !IsSpace(s[|s| - 1]) then 0
    else 1 + TrailingSpaces(s[..|s| - 1])
  }

  /** Python's `s.strip()`: `s` without its leading and trailing whitespace. */
  function Strip(s: string): (r: string)
    ensures r == [] <==> AllSpace(s)
    ensures r != [] ==> !IsSpace(r[0]) && !IsSpace(r[|r| - 1])
    ensures LeadingSpaces(s) + |r| <= |s|
    ensures r == s[LeadingSpaces(s)..LeadingSpaces(s) + |r|]
    ensures AllSpace(s[LeadingSpaces(s) + |r|..])
  {
    var a := LeadingSpaces(s);
    if a == |s| then
      assert s[..a] == s;
      []
    else
      var b := TrailingSpaces(s);
      s[a..|s| - b]
  }

  /** Python's `re.sub('\s+', ' ', s)`: every maximal run of whitespace becomes one space. */
  function Collapse(s: string): string
    decreases |s|
  {
    if s == [] then []
    else if IsSpace(s[0]) then " " + Collapse(s[LeadingSpaces(s)..])
    else [s[0]] + Collapse(s[1..])
  }

  /** `re.sub('\s+', ' ', s.strip())`, the clean-up applied to title, subtitle and byline. */
  function Normalize(s: string): string {
    Collapse(Strip(s))
  }

  /** The only whitespace left is the plain space, and no two spaces are adjacent. */
  predicate SingleSpaced(s: string) {
    (forall i :: 0 <= i < |s| && IsSpace(s[i]) ==> s[i] == ' ')
    && (forall i :: 0 <= i < |s| - 1 ==> !(s[i] == ' ' && s[i + 1] == ' '))
  }

  /** The characters of `s` that are not whitespace, in order. */
  function NonSpace(s: string): string {
    if s == [] then [] else (if IsSpace(s[0]) then [] else [s[0]]) + NonSpace(s[1..])
  }

  lemma CollapseShape(s: string)
    ensures SingleSpaced(Collapse(s))
    ensures s == [] <==> Collapse(s) == []
    ensures s != [] ==> (IsSpace(s[0]) <==> IsSpace(Collapse(s)[0]))
    ensures s != [] ==> (IsSpace(s[|s| - 1]) <==> IsSpace(Collapse(s)[|Collapse(s)| - 1]))
  {
    CollapseEnds(s);
    CollapseSingleSpaced(s);
  }

  lemma {:induction false} CollapseEnds(s: string)
    ensures s == [] <==> Collapse(s) == []
    ensures s != [] ==> (IsSpace(s[0]) <==> IsSpace(Collapse(s)[0]))
    ensures s != [] ==> (IsSpace(s[|s| - 1]) <==> IsSpace(Collapse(s)[|Collapse(s)| - 1]))
    decreases |s|
  {
    if s == [] {
    } else if IsSpace(s[0]) {
      var t := s[LeadingSpaces(s)..];
      CollapseEnds(t);
      if t != [] {
        assert t[|t| - 1] == s[|s| - 1];
      } else {
        assert s[..LeadingSpaces(s)] == s;
      }
    } else {
      CollapseEnds(s[1..]);
    }
  }

  lemma {:induction false} CollapseSingleSpaced(s: string)
    ensures SingleSpaced(Collapse(s))
    decreases |s|
  {
    if s == [] {
    } else if IsSpace(s[0]) {
      var t := s[LeadingSpaces(s)..];
      CollapseSingleSpaced(t);
      CollapseEnds(t);
      SingleSpacedPrepend(' ', Collapse(t));
    } else {
      CollapseSingleSpaced(s[1..]);
      SingleSpacedPrepend(s[0], Collapse(s[1..]));
    }
  }

  lemma SingleSpacedPrepend(c: char, r: string)
    requires SingleSpaced(r) && (IsSpace(c) ==> c == ' ')
    requires c == ' ' && r != [] ==> !IsSpace(r[0])
    ensures SingleSpaced([c] + r)
  {
    var t := [c] + r;
    forall i | 0 <= i < |t| - 1
      ensures !(t[i] == ' ' && t[i + 1] == ' ')
    {
      if i > 0 {
        assert t[i] == r[i - 1] && t[i + 1] == r[i];
      }
    }
  }

  /** The cleaned-up text has no leading or trailing whitespace, uses only plain
      spaces as whitespace, and never has two spaces in a row. */
  lemma NormalizeShape(s: string)
    ensures var r := Normalize(s);
      SingleSpaced(r) && (r != [] ==> !IsSpace(r[0]) && !IsSpace(r[|r| - 1]))
  {
    CollapseShape(Strip(s));
  }

  lemma {:induction false} NonSpaceAppend(a: string, b: string)
    ensures NonSpace(a + b) == NonSpace(a) + NonSpace(b)
    decreases |a|
  {
    if a == [] {
      assert a + b == b;
    } else {
      assert (a + b)[0] == a[0];
      assert (a + b)[1..] == a[1..] + b;
      NonSpaceAppend(a[1..], b);
    }
  }

  lemma {:induction false} NonSpaceOfSpaces(a: string)
    requires AllSpace(a)
    ensures NonSpace(a) == []
    decreases |a|
  {
    if a != [] {
      NonSpaceOfSpaces(a[1..]);
    }
  }

  /** Dropping a run of whitespace does not change the non-space text. */
  lemma NonSpaceSkip(s: string, n: nat)
    requires n <= |s| && AllSpace(s[..n])
    ensures NonSpace(s[n..]) == NonSpace(s)
  {
    assert s == s[..n] + s[n..];
    NonSpaceAppend(s[..n], s[n..]);
    NonSpaceOfSpaces(s[..n]);
  }

  lemma {:induction false} CollapseKeepsText(s: string)
    ensures NonSpace(Collapse(s)) == NonSpace(s)
    decreases |s|
  {
    if s == [] {
    } else if IsSpace(s[0]) {
      var n := LeadingSpaces(s);
      CollapseKeepsText(s[n..]);
      NonSpaceAppend(" ", Collapse(s[n..]));
      NonSpaceSkip(s, n);
    } else {
      CollapseKeepsText(s[1..]);
      NonSpaceAppend([s[0]], Collapse(s[1..]));
    }
  }

  /** Stripping never loses or reorders a visible character. */
  lemma StripKeepsText(s: string)
    ensures NonSpace(Strip(s)) == NonSpace(s)
  {
    var a := LeadingSpaces(s);
    var r := Strip(s);
    assert s[a..] == r + s[a + |r|..];
    NonSpaceSkip(s, a);
    NonSpaceAppend(r, s[a + |r|..]);
    NonSpaceOfSpaces(s[a + |r|..]);
  }

  /** `r` is `s` with its padding taken off and nothing else changed: `s` is some
      whitespace, then `r` itself, then more whitespace, and `r` neither starts nor
      ends with whitespace. */
  predicate StrippedFrom(r: string, s: string) {
    && (r != [] ==> !IsSpace(r[0]) && !IsSpace(r[|r| - 1]))
    && exists a :: 0 <= a <= |s| - |r| && s[a..a + |r|] == r && AllSpace(s[..a]) && AllSpace(s[a + |r|..])
  }

  /** `strip()` only takes off padding. */
  lemma StripPadded(s: string)
    ensures StrippedFrom(Strip(s), s)
  {
    var a := LeadingSpaces(s);
    var r := Strip(s);
    assert s[a..a + |r|] == r && AllSpace(s[..a]) && AllSpace(s[a + |r|..]);
  }

  /** Taking off the padding has only one outcome, the one of `strip()`. */
  lemma StrippedUnique(r: string, s: string)
    requires StrippedFrom(r, s)
    ensures r == Strip(s)
  {
    var a :| 0 <= a <= |s| - |r| && s[a..a + |r|] == r && AllSpace(s[..a]) && AllSpace(s[a + |r|..]);
    PaddedAt(s, a, r);
  }

  lemma PaddedAt(s: string, a: nat, r: string)
    requires a + |r| <= |s| && s[a..a + |r|] == r && AllSpace(s[..a]) && AllSpace(s[a + |r|..])
    requires r != [] ==> !IsSpace(r[0]) && !IsSpace(r[|r| - 1])
    ensures Strip(s) == r
  {
    var t := Strip(s);
    if r == [] {
      SpacesJoin(s, a);
    } else {
      assert s[a] == r[0] && s[a + |r| - 1] == r[|r| - 1];
      LeadingSpacesAt(s, a);
      assert !AllSpace(s) by { assert !IsSpace(s[a]); }
      assert s[a + |t| - 1] == t[|t| - 1];
      PaddingEndsAt(s, a + |t|, a + |r|);
    }
  }

  lemma SpacesJoin(s: string, a: nat)
    requires a <= |s| && AllSpace(s[..a]) && AllSpace(s[a..])
    ensures AllSpace(s)
  {
    forall i | 0 <= i < |s|
      ensures IsSpace(s[i])
    {
      if i < a {
        assert s[i] == s[..a][i];
      } else {
        assert s[i] == s[a..][i - a];
      }
    }
  }

  /** The whitespace run that starts `s` ends at the first visible character. */
  lemma LeadingSpacesAt(s: string, a: nat)
    requires a < |s| && AllSpace(s[..a]) && !IsSpace(s[a])
    ensures LeadingSpaces(s) == a
  {
    var n := LeadingSpaces(s);
    assert forall i :: 0 <= i < a ==> s[..a][i] == s[i];
    assert forall i :: 0 <= i < n ==> s[..n][i] == s[i];
  }

  /** Two ends of text after which only whitespace follows, each just after a
      visible character, are the same end. */
  lemma PaddingEndsAt(s: string, e1: nat, e2: nat)
    requires 0 < e1 <= |s| && 0 < e2 <= |s|
    requires !IsSpace(s[e1 - 1]) && !IsSpace(s[e2 - 1])
    requires AllSpace(s[e1..]) && AllSpace(s[e2..])
    ensures e1 == e2
  {
    assert forall i :: e1 <= i < |s| ==> s[e1..][i - e1] == s[i];
    assert forall i :: e2 <= i < |s| ==> s[e2..][i - e2] == s[i];
  }

  /** Cleaning up never loses or reorders a visible character. */
  lemma NormalizeKeepsText(s: string)
    ensures NonSpace(Normalize(s)) == NonSpace(s)
  {
    CollapseKeepsText(Strip(s));
    StripKeepsText(s);
  }

  /** `r` is `s` cleaned up: single-spaced, with no whitespace at either end, and
      keeping every visible character of `s` in order. */
  predicate CleanedFrom(r: string, s: string) {
    && SingleSpaced(r) && (r != [] ==> !IsSpace(r[0]) && !IsSpace(r[|r| - 1]))
    && NonSpace(r) == NonSpace(s)
  }

  lemma NormalizeCleans(s: string)
    ensures CleanedFrom(Normalize(s), s)
  {
    NormalizeShape(s);
    NormalizeKeepsText(s);
  }

  lemma {:induction false} CollapseOfSingleSpaced(t: string)
    requires SingleSpaced(t)
    ensures Collapse(t) == t
    decreases |t|
  {
    if t != [] {
      assert SingleSpaced(t[1..]);
      if IsSpace(t[0]) {
        assert LeadingSpaces(t) == 1 by {
          if |t| > 1 {
            assert !IsSpace(t[1]);
          }
        }
      }
      CollapseOfSingleSpaced(t[1..]);
    }
  }

  /** Cleaning up cleaned-up text changes nothing. */
  lemma NormalizeIdempotent(s: string)
    ensures Normalize(Normalize(s)) == Normalize(s)
  {
    var r := Normalize(s);
    NormalizeShape(s);
    assert LeadingSpaces(r) == 0;
    assert Strip(r) == r by {
      if r != [] {
        assert TrailingSpaces(r) == 0;
      }
    }
    CollapseOfSingleSpaced(r);
  }

  /** Length of the run of visible characters that starts `s`. */
  function VisibleRun(s: string): (n: nat)
    ensures n <= |s| && forall i :: 0 <= i < n ==> !IsSpace(s[i])
    ensures n < |s| ==> IsSpace(s[n])
  {
    if s == [] || IsSpace(s[0]) then 0 else 1 + VisibleRun(s[1..])
  }

  /** The words of `s`, as `s.split()` gives them: its maximal runs of visible
      characters, in order. */
  function Words(s: string): (ws: seq<string>)
    ensures forall k :: 0 <= k < |ws| ==> ws[k] != [] && forall i :: 0 <= i < |ws[k]| ==> !IsSpace(ws[k][i])
    decreases |s|
  {
    var a := LeadingSpaces(s);
    if a == |s| then []
    else
      var t := s[a..];
      assert t[0] == s[a];
      var n := VisibleRun(t);
      [t[..n]] + Words(t[n..])
  }

  /** The clean-up is the words of the text, joined by one plain space each. */
  lemma NormalizeWords(s: string)
    ensures Normalize(s) == Join(Words(s), " ")
  {
    var a := LeadingSpaces(s);
    var r := Strip(s);
    var q := s[a + |r|..];
    assert s[a..] == r + q;
    WordsSkip(s);
    WordsAppendSpaces(r, q);
    CollapseWords(r);
  }

  /** On text with no whitespace at either end, collapsing the runs joins the words. */
  lemma {:induction false} CollapseWords(s: string)
    requires s != [] ==> !IsSpace(s[0]) && !IsSpace(s[|s| - 1])
    ensures Collapse(s) == Join(Words(s), " ")
    decreases |s|
  {
    if s != [] {
      var n := VisibleRun(s);
      if n == |s| {
        CollapseOneWord(s);
      } else {
        var u := CollapseWordsStep(s);
        CollapseWords(u);
        JoinCons(s[..n], Words(u), " ");
      }
    }
  }

  /** Text without whitespace is one word, and collapsing leaves it alone. */
  lemma CollapseOneWord(s: string)
    requires s != [] && VisibleRun(s) == |s|
    ensures Collapse(s) == s && Words(s) == [s]
  {
    CollapseVisible(s, |s|);
    WordsVisibleStep(s);
    assert s[..|s|] == s && s[|s|..] == [];
  }

  /** The first word of tight text with more than one word, the whitespace after
      it, and the tight text `u` that remains. */
  lemma CollapseWordsStep(s: string) returns (u: string)
    requires s != [] && !IsSpace(s[0]) && !IsSpace(s[|s| - 1]) && VisibleRun(s) < |s|
    ensures |u| < |s| && u != [] && !IsSpace(u[0]) && !IsSpace(u[|u| - 1])
    ensures Collapse(s) == s[..VisibleRun(s)] + " " + Collapse(u)
    ensures Words(s) == [s[..VisibleRun(s)]] + Words(u) && Words(u) != []
  {
    var n := VisibleRun(s);
    CollapseVisible(s, n);
    WordsVisibleStep(s);
    var rest := s[n..];
    assert rest[|rest| - 1] == s[|s| - 1];
    LeadingSpacesBelow(rest);
    u := rest[LeadingSpaces(rest)..];
    assert u[|u| - 1] == s[|s| - 1];
    CollapseSpaceStep(rest);
    WordsSkip(rest);
    WordsVisibleStep(u);
  }

  /** One step of `Words` on text that starts with a visible character. */
  lemma WordsVisibleStep(s: string)
    requires s != [] && !IsSpace(s[0])
    ensures Words(s) == [s[..VisibleRun(s)]] + Words(s[VisibleRun(s)..])
  {
    assert LeadingSpaces(s) == 0 && s[0..] == s;
  }

  /** One step of `Collapse` on text that starts with whitespace. */
  lemma CollapseSpaceStep(s: string)
    requires s != [] && IsSpace(s[0])
    ensures Collapse(s) == " " + Collapse(s[LeadingSpaces(s)..])
  {
  }

  /** Text of whitespace only has no words. */
  lemma WordsOfSpaces(s: string)
    requires AllSpace(s)
    ensures Words(s) == []
  {
  }

  /** Collapsing passes a leading run of visible characters through unchanged. */
  lemma {:induction false} CollapseVisible(s: string, n: nat)
    requires n <= |s| && forall i :: 0 <= i < n ==> !IsSpace(s[i])
    ensures Collapse(s) == s[..n] + Collapse(s[n..])
    decreases n
  {
    if n > 0 {
      CollapseVisible(s[1..], n - 1);
      assert s[1..][n - 1..] == s[n..];
      assert [s[0]] + s[1..][..n - 1] == s[..n];
    } else {
      assert s[0..] == s;
    }
  }

  lemma LeadingSpacesBelow(s: string)
    requires s != [] && !IsSpace(s[|s| - 1])
    ensures LeadingSpaces(s) < |s|
  {
    var n := LeadingSpaces(s);
    assert forall i :: 0 <= i < n ==> s[..n][i] == s[i];
  }

  /** Leading whitespace does not change the words. */
  lemma WordsSkip(s: string)
    ensures Words(s) == Words(s[LeadingSpaces(s)..])
  {
    var t := s[LeadingSpaces(s)..];
    if t != [] {
      assert t[0] == s[LeadingSpaces(s)];
      assert LeadingSpaces(t) == 0 && t[0..] == t;
    } else {
      assert LeadingSpaces(t) == 0;
    }
  }

  /** Trailing whitespace does not change the words. */
  lemma {:induction false} WordsAppendSpaces(r: string, q: string)
    requires AllSpace(q)
    ensures Words(r + q) == Words(r)
    decreases |r|
  {
    if LeadingSpaces(r) == |r| {
      WordsOfSpacesAppend(r, q);
    } else {
      var rest := WordsAppendStep(r, q);
      WordsAppendSpaces(rest, q);
    }
  }

  lemma WordsOfSpacesAppend(r: string, q: string)
    requires AllSpace(q) && LeadingSpaces(r) == |r|
    ensures Words(r + q) == [] && Words(r) == []
  {
    var s := r + q;
    assert s[..|r|] == r && s[|r|..] == q && r[..|r|] == r;
    SpacesJoin(s, |r|);
    WordsOfSpaces(s);
    WordsOfSpaces(r);
  }

  /** The first word of `r` is also the first word of `r + q`, and what follows it
      in `r + q` is what follows it in `r`, then `q`. */
  lemma WordsAppendStep(r: string, q: string) returns (rest: string)
    requires AllSpace(q) && LeadingSpaces(r) < |r|
    ensures |rest| < |r|
    ensures exists w :: Words(r) == [w] + Words(rest) && Words(r + q) == [w] + Words(rest + q)
  {
    var t := SkipBeforeAppend(r, q);
    var n := VisibleRun(t);
    VisibleAppendStep(t, q);
    rest := t[n..];
    assert Words(r) == [t[..n]] + Words(rest);
  }

  /** Leading whitespace is skipped the same way with or without `q` after `r`. */
  lemma SkipBeforeAppend(r: string, q: string) returns (t: string)
    requires AllSpace(q) && LeadingSpaces(r) < |r|
    ensures t == r[LeadingSpaces(r)..] && t != [] && !IsSpace(t[0])
    ensures Words(r) == Words(t) && Words(r + q) == Words(t + q)
  {
    var a := LeadingSpaces(r);
    t := r[a..];
    AppendSlices(r, q, a);
    assert (r + q)[a] == r[a] == t[0];
    WordsFrom(r + q, a);
    WordsFrom(r, a);
  }

  /** Words start after the whitespace that starts the text. */
  lemma WordsFrom(s: string, a: nat)
    requires a < |s| && AllSpace(s[..a]) && !IsSpace(s[a])
    ensures Words(s) == Words(s[a..])
  {
    LeadingSpacesAt(s, a);
    var t := s[a..];
    assert t[0] == s[a];
    assert LeadingSpaces(t) == 0 && t[0..] == t;
  }

  /** The first word of `t` stays the first word when whitespace follows `t`. */
  lemma VisibleAppendStep(t: string, q: string)
    requires AllSpace(q) && t != [] && !IsSpace(t[0])
    ensures var n := VisibleRun(t);
      Words(t) == [t[..n]] + Words(t[n..]) && Words(t + q) == [t[..n]] + Words(t[n..] + q)
  {
    var n := VisibleRun(t);
    VisibleRunAt(t + q, n);
    WordsVisibleStep(t);
    WordsVisibleStep(t + q);
    AppendSlices(t, q, n);
  }

  lemma AppendSlices(t: string, q: string, n: nat)
    requires n <= |t|
    ensures (t + q)[..n] == t[..n] && (t + q)[n..] == t[n..] + q
  {
  }

  /** The visible run ends at the first whitespace character. */
  lemma VisibleRunAt(s: string, n: nat)
    requires n <= |s| && forall i :: 0 <= i < n ==> !IsSpace(s[i])
    requires n < |s| ==> IsSpace(s[n])
    ensures VisibleRun(s) == n
  {
    var m := VisibleRun(s);
    assert m < |s| ==> IsSpace(s[m]);
  }

  predicate IsLower(c: char) {
    'a' <= c <= 'z'
  }

  function UpperChar(c: char): char {
    if IsLower(c) then (c as int - 32) as char else c
  }

  /** Python's `s.upper()` restricted to ASCII letters. */
  function Upper(s: string): (r: string)
    ensures |r| == |s|
    ensures forall i :: 0 <= i < |s| ==> !IsLower(r[i]) && (!IsLower(s[i]) ==> r[i] == s[i])
  {
    seq(|s|, i requires 0 <= i < |s| => UpperChar(s[i]))
  }

  predicate OccursAt(s: string, sub: string, i: int) {
    0 <= i && i + |sub| <= |s| && s[i..i + |sub|] == sub
  }

  function FindFrom(s: string, sub: string, i: nat): (r: int)
    requires i <= |s|
    ensures r == -1 || (i <= r && OccursAt(s, sub, r))
    ensures forall k :: i <= k < (if r == -1 then |s| + 1 else r) ==> !OccursAt(s, sub, k)
    decreases |s| - i
  {
    if OccursAt(s, sub, i) then i
    else if i == |s| then -1
    else FindFrom(s, sub, i + 1)
  }

  /** Python's `s.find(sub)`: the lowest index at which `sub` occurs, or -1. */
  function Find(s: string, sub: string): (r: int)
    ensures r == -1 <==> forall k :: !OccursAt(s, sub, k)
    ensures r != -1 ==> OccursAt(s, sub, r) && forall k :: 0 <= k < r ==> !OccursAt(s, sub, k)
  {
    FindFrom(s, sub, 0)
  }

  /** The empty string is found at the start. */
  lemma FindEmpty(s: string)
    ensures Find(s, "") == 0
  {
    assert OccursAt(s, "", 0);
  }

  /** Text found in an upper-cased string has no lowercase letter. */
  lemma FoundInUpper(s: string, sub: string, p: int)
    requires OccursAt(Upper(s), sub, p)
    ensures forall i :: 0 <= i < |sub| ==> !IsLower(sub[i])
  {
    forall i | 0 <= i < |sub|
      ensures !IsLower(sub[i])
    {
      assert sub[i] == Upper(s)[p..p + |sub|][i];
    }
  }

  /** Index of the first `c` in `s`, or `|s|`. */
  function IndexOf(s: string, c: char): (i: nat)
    ensures i <= |s| && c !in s[..i]
    ensures i < |s| ==> s[i] == c
  {
    if s == [] then 0
    else if s[0] == c then 0
    else
      var j := IndexOf(s[1..], c);
      assert s[..1 + j] == [s[0]] + s[1..][..j];
      1 + j
  }

  /** Python's `s.split(sep)` for a one-character separator. */
  function Split(s: string, sep: char): (parts: seq<string>)
    ensures |parts| >= 1
    ensures forall k :: 0 <= k < |parts| ==> sep !in parts[k]
    decreases |s|
  {
    var i := IndexOf(s, sep);
    if i == |s| then
      assert s[..i] == s;
      [s]
    else [s[..i]] + Split(s[i + 1..], sep)
  }

  /** Python's `sep.join(parts)`. */
  function Join(parts: seq<string>, sep: string): string {
    if parts == [] then []
    else if |parts| == 1 then parts[0]
    else parts[0] + sep + Join(parts[1..], sep)
  }

  /** Splitting and joining again with the same separator gives back the text. */
  lemma {:induction false} JoinSplit(s: string, sep: char)
    ensures Join(Split(s, sep), [sep]) == s
    decreases |s|
  {
    var i := IndexOf(s, sep);
    SplitStep(s, sep);
    if i < |s| {
      var head, tail := s[..i], s[i + 1..];
      var rest := Split(tail, sep);
      JoinSplit(tail, sep);
      JoinCons(head, rest, [sep]);
      calc {
        Join(Split(s, sep), [sep]);
        Join([head] + rest, [sep]);
        head + [sep] + Join(rest, [sep]);
        head + [sep] + tail;
        { SliceAround(s, i); }
        s;
      }
    }
  }

  lemma SliceAround(s: string, i: nat)
    requires i < |s|
    ensures s == s[..i] + [s[i]] + s[i + 1..]
  {
  }

  /** One step of `Split`: the text up to the first `sep`, then the split of the rest. */
  lemma SplitStep(s: string, sep: char)
    ensures var i := IndexOf(s, sep);
      Split(s, sep) == if i == |s| then [s] else [s[..i]] + Split(s[i + 1..], sep)
  {
  }

  /** Joining a leading part onto a non-empty list of parts. */
  lemma JoinCons(a: string, rest: seq<string>, sep: string)
    requires rest != []
    ensures Join([a] + rest, sep) == a + sep + Join(rest, sep)
  {
    assert ([a] + rest)[1..] == rest;
  }

  /** The first two parts of a split: the text before the first `sep` and the text
      between the first and the second. */
  lemma SplitHead(s: string, sep: char)
    requires sep in s
    ensures |Split(s, sep)| >= 2
    ensures var parts := Split(s, sep);
      var i := IndexOf(s, sep);
      parts[0] == s[..i] && parts[1] == s[i + 1..][..IndexOf(s[i + 1..], sep)]
  {
    var i := IndexOf(s, sep);
    var rest := s[i + 1..];
    var j := IndexOf(rest, sep);
    if j == |rest| {
      assert rest[..j] == rest;
    }
  }

  /** The first two parts of a split, joined by the separator, begin the text. */
  lemma SplitHeadPrefix(s: string, sep: char)
    requires sep in s
    ensures |Split(s, sep)| >= 2 && Split(s, sep)[0] + [sep] + Split(s, sep)[1] <= s
  {
    SplitHead(s, sep);
    var i := IndexOf(s, sep);
    SlicesJoin(s, i, IndexOf(s[i + 1..], sep));
  }

  /** After the first two parts of a split comes the end of the text or a separator. */
  lemma SplitHeadEnd(s: string, sep: char)
    requires sep in s
    ensures |Split(s, sep)| >= 2
    ensures var k := Split(s, sep)[0] + [sep] + Split(s, sep)[1]; k == s || k + [sep] <= s
  {
    SplitHead(s, sep);
    var i := IndexOf(s, sep);
    var j := IndexOf(s[i + 1..], sep);
    if j < |s[i + 1..]| {
      assert s[i + 1 + j] == s[i + 1..][j];
    }
    HeadThenSep(s, sep, i, j);
  }

  lemma HeadThenSep(s: string, sep: char, i: nat, j: nat)
    requires i < |s| && s[i] == sep && j <= |s| - i - 1
    requires i + 1 + j < |s| ==> s[i + 1 + j] == sep
    ensures var k := s[..i] + [sep] + s[i + 1..][..j]; k == s || k + [sep] <= s
  {
    SlicesJoin(s, i, j);
    if i + 1 + j < |s| {
      assert s[..i + 1 + j] + [sep] == s[..i + 2 + j];
    } else {
      assert s[..i + 1 + j] == s;
    }
  }

  lemma SlicesJoin(s: string, i: nat, j: nat)
    requires i < |s| && j <= |s| - i - 1
    ensures s[..i] + [s[i]] + s[i + 1..][..j] == s[..i + 1 + j]
  {
  }

  /** Python's `s.splitlines()`, for text whose only line break is `'\n'`. */
  function SplitLines(s: string): (lines: seq<string>)
    ensures forall k :: 0 <= k < |lines| ==> '\n' !in lines[k]
    ensures lines == [] <==> s == []
  {
    if s == [] then []
    else if s[|s| - 1] == '\n' then Split(s[..|s| - 1], '\n')
    else Split(s, '\n')
  }

  /** The lines joined with `'\n'` give the text back, up to its final line break. */
  lemma SplitLinesJoin(s: string)
    ensures s == Join(SplitLines(s), "\n") + (if s != [] && s[|s| - 1] == '\n' then "\n" else "")
  {
    if s != [] {
      if s[|s| - 1] == '\n' {
        JoinSplit(s[..|s| - 1], '\n');
        assert s == s[..|s| - 1] + "\n";
      } else {
        JoinSplit(s, '\n');
      }
    }
  }

  /** Python's `s[k:]` for `k >= 0`: empty once `k` passes the end. */
  function SliceFrom(s: string, k: nat): (r: string)
    ensures |r| == if k <= |s| then |s| - k else 0
    ensures forall i :: 0 <= i < |r| ==> r[i] == s[k + i]
  {
    if k <= |s| then s[k..] else []
  }

  /** Python's `a <= b` on `str`: lexicographic by code point, a prefix first. */
  predicate StrLe(a: string, b: string) {
    a == [] || (b != [] && (a[0] < b[0] || (a[0] == b[0] && StrLe(a[1..], b[1..]))))
  }
}
