/**
 * Python's `int(text)`, `str(n)` and `text.zfill(width)` on ASCII digits, and the
 * first match of the regular expression `\d+`.
 */
module PyInt {
  import opened Wrappers
  import opened PyStr

  predicate IsDigit(c: char) {
    '0' <= c <= '9'
  }

  predicate AllDigits(s: string) {
    forall i :: 0 <= i < |s| ==> IsDigit(s[i])
  }

  function DigitValue(c: char): nat
    requires IsDigit(c)
  {
    c as int - '0' as int
  }

  function DigitChar(d: nat): (c: char)
    requires d < 10
    ensures IsDigit(c) && DigitValue(c) == d
  {
    ('0' as int + d) as char
  }

  /** The value of a string of decimal digits, most significant first. */
  function DecimalValue(s: string): nat
    requires AllDigits(s)
  {
    if s == [] then 0 else DecimalValue(s[..|s| - 1]) * 10 + DigitValue(s[|s| - 1])
  }

  /** Python's `str(n)` for `n >= 0`: decimal digits without leading zeros. */
  function NatToStr(n: nat): (s: string)
    ensures s != [] && AllDigits(s)
    ensures |s| > 1 ==> s[0] != '0'
  {
    if n < 10 then [DigitChar(n)] else NatToStr(n / 10) + [DigitChar(n % 10)]
  }

  /** Python's `str(n)`. */
  function IntToStr(n: int): string {
    if n < 0 then "-" + NatToStr(-n) else NatToStr(n)
  }

  lemma {:induction false} DecimalOfNatToStr(n: nat)
    ensures DecimalValue(NatToStr(n)) == n
  {
    if n >= 10 {
      var s := NatToStr(n);
      assert s[..|s| - 1] == NatToStr(n / 10);
      DecimalOfNatToStr(n / 10);
    }
  }

  function Zeros(k: nat): (z: string)
    ensures |z| == k && AllDigits(z)
    ensures forall i :: 0 <= i < k ==> z[i] == '0'
  {
    seq(k, _ => '0')
  }

  lemma {:induction false} ZerosValue(k: nat)
    ensures DecimalValue(Zeros(k)) == 0
  {
    if k > 0 {
      assert Zeros(k)[..k - 1] == Zeros(k - 1);
      ZerosValue(k - 1);
    }
  }

  /** Leading zeros do not change the value of a digit string. */
  lemma {:induction false} DecimalLeadingZeros(k: nat, s: string)
    requires AllDigits(s)
    ensures AllDigits(Zeros(k) + s) && DecimalValue(Zeros(k) + s) == DecimalValue(s)
    decreases |s|
  {
    var t := Zeros(k) + s;
    if s == [] {
      assert t == Zeros(k);
      ZerosValue(k);
    } else {
      assert t[..|t| - 1] == Zeros(k) + s[..|s| - 1];
      DecimalLeadingZeros(k, s[..|s| - 1]);
    }
  }

  /** Python's `s.zfill(width)`: pads with zeros on the left, after a leading sign,
      up to `width` characters, and never shortens `s`. */
  function ZFill(s: string, width: int): (r: string)
    ensures |r| == if |s| >= width then |s| else width
  {
    if |s| >= width then s
    else if s != [] && (s[0] == '+' || s[0] == '-') then [s[0]] + Zeros(width - |s|) + s[1..]
    else Zeros(width - |s|) + s
  }

  /** Decimal digits with single underscores between them, the form `int()` accepts. */
  predicate DigitGroups(s: string) {
    s != [] && IsDigit(s[0]) && IsDigit(s[|s| - 1]) && DigitsOrUnderscores(s)
    && forall i :: 0 <= i < |s| - 1 && s[i] == '_' ==> IsDigit(s[i + 1])
  }

  predicate DigitsOrUnderscores(s: string) {
    forall i :: 0 <= i < |s| ==> IsDigit(s[i]) || s[i] == '_'
  }

  function DropUnderscores(s: string): (r: string)
    requires DigitsOrUnderscores(s)
    ensures AllDigits(r)
  {
    if s == [] then [] else (if s[0] == '_' then [] else [s[0]]) + DropUnderscores(s[1..])
  }

  lemma {:induction false} DropUnderscoresOfDigits(s: string)
    requires AllDigits(s)
    ensures DropUnderscores(s) == s
  {
    if s != [] {
      DropUnderscoresOfDigits(s[1..]);
    }
  }

  function ParseUnsigned(s: string): Option<nat> {
    if DigitGroups(s) then Some(DecimalValue(DropUnderscores(s))) else None
  }

  /** The whitespace `int()` skips around a number. CPython passes an ASCII string to
      its parser unchanged, and the parser skips only `\t`, `\n`, `\v`, `\f`, `\r`
      and the space; in a non-ASCII string every other code point that
      `str.isspace()` accepts is first turned into a space. So this is
      `str.isspace()` without the separators U+001C to U+001F, which `int()` rejects. */
  predicate IsIntSpace(c: char) {
    IsSpace(c) && !('\U{1C}' <= c <= '\U{1F}')
  }

  /** Length of the run of `int()` whitespace that starts `s`. */
  function LeadingIntSpaces(s: string): (n: nat)
    ensures n <= |s|
    ensures forall i :: 0 <= i < n ==> IsIntSpace(s[i])
    ensures n < |s| ==> !IsIntSpace(s[n])
  {
    if s == [] || !IsIntSpace(s[0]) then 0
    else
      var m := LeadingIntSpaces(s[1..]);
      assert forall i :: 1 <= i < 1 + m ==> s[i] == s[1..][i - 1];
      1 + m
  }

  /** Length of the run of `int()` whitespace that ends `s`. */
  function TrailingIntSpaces(s: string): (n: nat)
    ensures n <= |s|
    ensures forall i :: |s| - n <= i < |s| ==> IsIntSpace(s[i])
    ensures n < |s| ==> !IsIntSpace(s[|s| - n - 1])
  {
    if s == [] || !IsIntSpace(s[|s| - 1]) then 0
    else 1 + TrailingIntSpaces(s[..|s| - 1])
  }

  /** The text `int()` parses: `s` without the whitespace it skips at either end. */
  function IntStrip(s: string): (r: string)
    ensures LeadingIntSpaces(s) + |r| <= |s|
    ensures r == s[LeadingIntSpaces(s)..LeadingIntSpaces(s) + |r|]
    ensures forall i :: LeadingIntSpaces(s) + |r| <= i < |s| ==> IsIntSpace(s[i])
    ensures r != [] ==> !IsIntSpace(r[0]) && !IsIntSpace(r[|r| - 1])
  {
    var a := LeadingIntSpaces(s);
    if a == |s| then []
    else
      var b := TrailingIntSpaces(s);
      assert !IsIntSpace(s[a]);
      s[a..|s| - b]
  }

  /** Python's `int(s)` on a `str`: surrounding whitespace, an optional sign, then
      ASCII digits grouped by single underscores; anything else is a `ValueError`
      (here `None`). */
  function ParseInt(s: string): Option<int> {
    ParseSigned(IntStrip(s))
  }

  /** An optional sign followed by digit groups. */
  function ParseSigned(t: string): Option<int> {
    if t != [] && (t[0] == '+' || t[0] == '-') then
      match ParseUnsigned(t[1..])
      case None => None
      case Some(v) => Some(if t[0] == '-' then -(v as int) else v as int)
    else
      match ParseUnsigned(t)
      case None => None
      case Some(v) => Some(v)
  }

  lemma StripOfTight(t: string)
    requires t != [] && !IsIntSpace(t[0]) && !IsIntSpace(t[|t| - 1])
    ensures IntStrip(t) == t
  {
    assert LeadingIntSpaces(t) == 0;
    assert TrailingIntSpaces(t) == 0;
  }

  lemma ParseUnsignedOfDigits(s: string)
    requires s != [] && AllDigits(s)
    ensures ParseUnsigned(s) == Some(DecimalValue(s))
  {
    DropUnderscoresOfDigits(s);
  }

  /** A non-empty string of digits parses to its decimal value. */
  lemma ParseIntOfDigits(s: string)
    requires s != [] && AllDigits(s)
    ensures ParseInt(s) == Some(DecimalValue(s))
  {
    StripOfTight(s);
    ParseUnsignedOfDigits(s);
  }

  lemma ParseIntOfNegative(t: string)
    requires |t| >= 2 && t[0] == '-' && AllDigits(t[1..])
    ensures ParseInt(t) == Some(-(DecimalValue(t[1..]) as int))
  {
    assert t[|t| - 1] == t[1..][|t| - 2];
    StripOfTight(t);
    ParseUnsignedOfDigits(t[1..]);
    ParseSignedNegative(t, DecimalValue(t[1..]));
  }

  lemma ParseSignedNegative(t: string, v: nat)
    requires t != [] && t[0] == '-' && ParseUnsigned(t[1..]) == Some(v)
    ensures ParseSigned(t) == Some(-(v as int))
  {
  }

  /** A name with a character that is neither a digit, a sign, an underscore nor
      whitespace `int()` skips is not a number: such directory entries are skipped. */
  lemma ParseIntRejects(s: string, k: nat)
    requires k < |s| && !IsDigit(s[k]) && !IsIntSpace(s[k]) && s[k] !in "+-_"
    ensures ParseInt(s) == None
  {
    var a := LeadingIntSpaces(s);
    StrippedKeeps(s, k);
    ParseSignedRejects(IntStrip(s), k - a);
  }

  /** A character that `int()` does not skip survives the strip, at its place less the
      leading whitespace. */
  lemma StrippedKeeps(s: string, k: nat)
    requires k < |s| && !IsIntSpace(s[k])
    ensures var a := LeadingIntSpaces(s);
      a <= k < a + |IntStrip(s)| && IntStrip(s)[k - a] == s[k]
  {
  }

  /** Unlike `str.strip()`, `int()` does not skip the separators U+001C to U+001F: a
      name holding one is never a number, wherever it stands. */
  lemma SeparatorsRejected(s: string, k: nat)
    requires k < |s| && '\U{1C}' <= s[k] <= '\U{1F}'
    ensures ParseInt(s) == None
    ensures IsSpace(s[k])
  {
    ParseIntRejects(s, k);
  }

  lemma ParseSignedRejects(t: string, p: nat)
    requires p < |t| && !IsDigit(t[p]) && t[p] !in "+-_"
    ensures ParseSigned(t) == None
  {
    if t[0] == '+' || t[0] == '-' {
      assert t[1..][p - 1] == t[p];
    }
  }

  lemma ParseZFillNat(n: nat, width: int)
    ensures ParseInt(ZFill(IntToStr(n), width)) == Some(n)
  {
    var s := NatToStr(n);
    var k := if |s| >= width then 0 else width - |s|;
    var z := ZFill(s, width);
    assert z == Zeros(k) + s;
    DecimalLeadingZeros(k, s);
    DecimalOfNatToStr(n);
    ParseIntOfDigits(z);
  }

  lemma ZFillOfSigned(d: string, width: int)
    ensures ZFill("-" + d, width) == "-" + (Zeros(if |d| + 1 >= width then 0 else width - |d| - 1) + d)
  {
    var s := "-" + d;
    assert s[0] == '-' && s[1..] == d;
    if |s| >= width {
      assert Zeros(0) + d == d;
    }
  }

  lemma ParseZFillNegative(n: int, width: int)
    requires n < 0
    ensures ParseInt(ZFill(IntToStr(n), width)) == Some(n)
  {
    var d := NatToStr(-n);
    var k := if |d| + 1 >= width then 0 else width - |d| - 1;
    var u := Zeros(k) + d;
    assert IntToStr(n) == "-" + d;
    ZFillOfSigned(d, width);
    assert ZFill(IntToStr(n), width) == "-" + u;
    DecimalLeadingZeros(k, d);
    DecimalOfNatToStr(-n);
    assert DecimalValue(u) == -n;
    var t := "-" + u;
    assert |t| >= 2 && t[0] == '-' && t[1..] == u;
    ParseIntOfNegative(t);
  }

  /** Zero-padding round-trips: `int(str(n).zfill(w)) == n` for every `n` and width. */
  lemma ParseZFill(n: int, width: int)
    ensures ParseInt(ZFill(IntToStr(n), width)) == Some(n)
  {
    if n >= 0 {
      ParseZFillNat(n, width);
    } else {
      ParseZFillNegative(n, width);
    }
  }

  function Pow10(k: nat): nat {
    if k == 0 then 1 else 10 * Pow10(k - 1)
  }

  lemma {:induction false} NatToStrLength(n: nat, k: nat)
    requires 1 <= k && n < Pow10(k)
    ensures |NatToStr(n)| <= k
  {
    if n >= 10 {
      assert n / 10 < Pow10(k - 1);
      NatToStrLength(n / 10, k - 1);
    }
  }

  /** A number below `10^w` is rendered in exactly `w` digits. */
  lemma ZFillExact(n: nat, width: nat)
    requires 1 <= width && n < Pow10(width)
    ensures |ZFill(IntToStr(n), width)| == width && AllDigits(ZFill(IntToStr(n), width))
  {
    NatToStrLength(n, width);
  }

  lemma {:induction false} DecimalValueZero(s: string)
    requires AllDigits(s) && DecimalValue(s) == 0
    ensures s == Zeros(|s|)
  {
    if s != [] {
      var init := s[..|s| - 1];
      DecimalValueZero(init);
      assert s == init + [s[|s| - 1]];
      assert Zeros(|s|) == Zeros(|s| - 1) + ['0'];
    }
  }

  /** `int()` loses only leading zeros: a digit string is its value written out and
      zero-filled back to the string's width. */
  lemma {:induction false} DigitsZFilled(s: string)
    requires s != [] && AllDigits(s)
    ensures ZFill(IntToStr(DecimalValue(s)), |s|) == s
  {
    var init, c := s[..|s| - 1], s[|s| - 1];
    var v := DecimalValue(s);
    assert s == init + [c];
    assert v == DecimalValue(init) * 10 + DigitValue(c);
    var t := NatToStr(v);
    if v < 10 {
      assert DecimalValue(init) == 0;
      DecimalValueZero(init);
      assert t == [c];
      ZFillUnsigned(t, |s|);
    } else {
      assert init != [];
      assert v / 10 == DecimalValue(init) && v % 10 == DigitValue(c);
      DigitsZFilled(init);
      var u := NatToStr(v / 10);
      assert t == u + [c];
      ZFillUnsigned(u, |init|);
      ZFillUnsigned(t, |s|);
      assert Zeros(|init| - |u|) + u + [c] == s;
    }
  }

  /** `zfill` on digits only adds zeros in front. */
  lemma ZFillUnsigned(t: string, width: int)
    requires t != [] && IsDigit(t[0])
    ensures |t| <= width ==> ZFill(t, width) == Zeros(width - |t|) + t
  {
    if |t| == width {
      assert Zeros(0) + t == t;
    }
  }

  /** Index of the first digit of `s`, or `|s|` when there is none. */
  function FirstDigit(s: string): (i: nat)
    ensures i <= |s| && forall k :: 0 <= k < i ==> !IsDigit(s[k])
    ensures i < |s| ==> IsDigit(s[i])
  {
    if s == [] || IsDigit(s[0]) then 0 else 1 + FirstDigit(s[1..])
  }

  /** Length of the run of digits that starts `s`. */
  function DigitRun(s: string): (n: nat)
    ensures n <= |s| && AllDigits(s[..n])
    ensures n < |s| ==> !IsDigit(s[n])
  {
    if s == [] || !IsDigit(s[0]) then 0
    else
      var m := DigitRun(s[1..]);
      assert s[..1 + m] == [s[0]] + s[1..][..m];
      1 + m
  }

  /** `re.findall(r'\d+', s)[0]`: the first maximal run of digits, `None` when the
      list would be empty. */
  function FirstDigitRun(s: string): (r: Option<string>)
    ensures r.None? <==> forall k :: 0 <= k < |s| ==> !IsDigit(s[k])
    ensures r.Some? ==> var i := FirstDigit(s);
      && r.value != [] && AllDigits(r.value)
      && i + |r.value| <= |s| && r.value == s[i..i + |r.value|]
      && (i + |r.value| == |s| || !IsDigit(s[i + |r.value|]))
  {
    var i := FirstDigit(s);
    if i == |s| then None
    else
      var n := DigitRun(s[i..]);
      Some(s[i..][..n])
  }
}
