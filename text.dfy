/**
 * The pieces of Python's string semantics that the task list relies on:
 * `str.strip()`, `str.lower()`, the substring test `needle in hay`, and
 * `int(text)` on decimal text.
 */
module Text {
  import opened Results

  // ---------------------------------------------------------------------
  // Whitespace and strip()
  // ---------------------------------------------------------------------

  /** The characters for which Python's `str.isspace()` holds. */
  predicate IsSpace(c: char) {
    || ('\t' <= c <= '\r')                 // \t \n \v \f \r
    || ('\U{1C}' <= c <= '\U{1F}')         // file, group, record, unit separators
    || c == ' '
    || c == '\U{85}' || c == '\U{A0}' || c == '\U{1680}'
    || ('\U{2000}' <= c <= '\U{200A}')
    || c == '\U{2028}' || c == '\U{2029}' || c == '\U{202F}' || c == '\U{205F}'
    || c == '\U{3000}'
  }

  /** Every character of `s` is whitespace (vacuously true of ""). */
  predicate AllSpace(s: string) {
    forall i :: 0 <= i < |s| ==> IsSpace(s[i])
  }

  /** `s.lstrip()`: drop leading whitespace. */
  function TrimLeft(s: string): (r: string)
    ensures |r| <= |s| && r == s[|s| - |r|..]
    ensures AllSpace(s[..|s| - |r|])
    ensures r == [] <==> AllSpace(s)
    ensures r != [] ==> !IsSpace(r[0])
  {
    if s == [] || !IsSpace(s[0]) then
      TrimLeftDone(s);
      s
    else
      var r := TrimLeft(s[1..]);
      TrimLeftStep(s, r);
      r
  }

  /** Text that does not start with whitespace is kept whole by lstrip(). */
  lemma TrimLeftDone(s: string)
    requires s == [] || !IsSpace(s[0])
    ensures AllSpace(s[..0])
    ensures s == [] <==> AllSpace(s)
  {
    if s != [] {
      assert !IsSpace(s[0]);
    }
  }

  /** Dropping one more leading whitespace character keeps TrimLeft's promises. */
  lemma TrimLeftStep(s: string, r: string)
    requires s != [] && IsSpace(s[0])
    requires |r| <= |s| - 1 && r == s[1..][|s| - 1 - |r|..]
    requires AllSpace(s[1..][..|s| - 1 - |r|])
    requires r == [] <==> AllSpace(s[1..])
    ensures r == s[|s| - |r|..]
    ensures AllSpace(s[..|s| - |r|])
    ensures r == [] <==> AllSpace(s)
  {
    var n := |s| - |r|;
    forall i | 0 < i < n
      ensures IsSpace(s[..n][i])
    {
      assert s[..n][i] == s[1..][..n - 1][i - 1];
    }
    if AllSpace(s) {
      forall i | 0 <= i < |s| - 1
        ensures IsSpace(s[1..][i])
      {
        assert s[1..][i] == s[i + 1];
      }
    }
    if r == [] {
      assert s[..n] == s;
    }
  }

  /** `s.rstrip()`: drop trailing whitespace. */
  function TrimRight(s: string): (r: string)
    ensures |r| <= |s| && r == s[..|r|]
    ensures AllSpace(s[|r|..])
    ensures r == [] <==> AllSpace(s)
    ensures r != [] ==> !IsSpace(r[|r| - 1])
  {
    if s == [] || !IsSpace(s[|s| - 1]) then
      TrimRightDone(s);
      s
    else
      var r := TrimRight(s[..|s| - 1]);
      TrimRightStep(s, r);
      r
  }

  /** Text that does not end with whitespace is kept whole by rstrip(). */
  lemma TrimRightDone(s: string)
    requires s == [] || !IsSpace(s[|s| - 1])
    ensures AllSpace(s[|s|..])
    ensures s == [] <==> AllSpace(s)
  {
    if s != [] {
      assert !IsSpace(s[|s| - 1]);
    }
  }

  /** Dropping one more trailing whitespace character keeps TrimRight's promises. */
  lemma TrimRightStep(s: string, r: string)
    requires s != [] && IsSpace(s[|s| - 1])
    requires |r| <= |s| - 1 && r == s[..|s| - 1][..|r|]
    requires AllSpace(s[..|s| - 1][|r|..])
    requires r == [] <==> AllSpace(s[..|s| - 1])
    ensures r == s[..|r|]
    ensures AllSpace(s[|r|..])
    ensures r == [] <==> AllSpace(s)
  {
    var m := |r|;
    forall i | 0 <= i < |s| - 1 - m
      ensures IsSpace(s[m..][i])
    {
      assert s[m..][i] == s[..|s| - 1][m..][i];
    }
    if AllSpace(s) {
      var init := s[..|s| - 1];
      forall i | 0 <= i < |init|
        ensures IsSpace(init[i])
      {
        assert init[i] == s[i];
      }
    }
    if r == [] {
      assert s[m..] == s;
    }
  }

  /**
   * `s.strip()`: drop leading and trailing whitespace. What remains is the
   * slice of `s` between a whitespace prefix and a whitespace suffix.
   */
  function Strip(s: string): (r: string)
    ensures |r| <= |s|
    ensures exists k :: OccursAt(s, r, k) && AllSpace(s[..k]) && AllSpace(s[k + |r|..])
    ensures r == [] <==> AllSpace(s)
    ensures r != [] ==> !IsSpace(r[0]) && !IsSpace(r[|r| - 1])
  {
    var t := TrimLeft(s);
    var r := TrimRight(t);
    assert AllSpace(s[..|s| - |t|]) && AllSpace(t[|r|..]);
    assert r == [] <==> AllSpace(t);
    TrimBoth(s, t, r);
    r
  }

  /** What lstrip() and rstrip() promise, put together, is what strip() promises. */
  lemma TrimBoth(s: string, t: string, r: string)
    requires |t| <= |s| && t == s[|s| - |t|..] && AllSpace(s[..|s| - |t|])
    requires t != [] ==> !IsSpace(t[0])
    requires |r| <= |t| && r == t[..|r|] && AllSpace(t[|r|..])
    requires r == [] <==> AllSpace(t)
    ensures OccursAt(s, r, |s| - |t|) && AllSpace(s[..|s| - |t|]) && AllSpace(s[|s| - |t| + |r|..])
    ensures r == [] <==> AllSpace(s)
    ensures r != [] ==> !IsSpace(r[0])
  {
    var k := |s| - |t|;
    assert r == s[k..k + |r|];
    assert s[k + |r|..] == t[|r|..];
    if t != [] {
      assert !AllSpace(t) && !AllSpace(s) by { assert s[k] == t[0]; }
    }
    if r != [] {
      assert r[0] == t[0];
    }
  }

  /** A string that neither starts nor ends with whitespace is left as it is by strip(). */
  lemma StripUnpadded(s: string)
    requires s != [] && !IsSpace(s[0]) && !IsSpace(s[|s| - 1])
    ensures Strip(s) == s
  {
    assert TrimLeft(s) == s;
    assert TrimRight(s) == s;
  }

  // ---------------------------------------------------------------------
  // lower()
  // ---------------------------------------------------------------------

  /** Upper-case letters of the Latin (ASCII) and Cyrillic (U+0400..U+042F) alphabets. */
  predicate IsUpper(c: char) {
    ('A' <= c <= 'Z') || ('\U{400}' <= c <= '\U{42F}')
  }

  /** Lower-case letters of the Latin (ASCII) and Cyrillic (U+0430..U+045F) alphabets. */
  predicate IsLower(c: char) {
    ('a' <= c <= 'z') || ('\U{430}' <= c <= '\U{45F}')
  }

  /** Python's upper() on one character, for the Latin and Cyrillic alphabets. */
  function UpperChar(c: char): (d: char)
    ensures IsLower(c) ==> IsUpper(d)
    ensures !IsLower(c) ==> d == c
  {
    if 'a' <= c <= 'z' then (c as int - 32) as char
    else if '\U{430}' <= c <= '\U{44F}' then (c as int - 32) as char   // а..я to А..Я
    else if '\U{450}' <= c <= '\U{45F}' then (c as int - 80) as char   // ѐ..џ to Ѐ..Џ
    else c
  }

  /**
   * Python's lower() on one character, for the Latin and Cyrillic alphabets:
   * each upper-case letter goes to its own lower-case partner.
   */
  function LowerChar(c: char): (d: char)
    ensures !IsUpper(d)
    ensures !IsUpper(c) ==> d == c
    ensures IsUpper(c) ==> IsLower(d) && UpperChar(d) == c
  {
    if 'A' <= c <= 'Z' then (c as int + 32) as char
    else if '\U{410}' <= c <= '\U{42F}' then (c as int + 32) as char   // А..Я to а..я
    else if '\U{400}' <= c <= '\U{40F}' then (c as int + 80) as char   // Ѐ..Џ to ѐ..џ
    else c
  }

  /** `s.lower()`, character by character. */
  function Lower(s: string): (r: string)
    ensures |r| == |s|
    ensures forall i :: 0 <= i < |r| ==> !IsUpper(r[i])
    ensures forall i :: 0 <= i < |r| ==> r[i] == LowerChar(s[i])
  {
    seq(|s|, i requires 0 <= i < |s| => LowerChar(s[i]))
  }

  /** `s.upper()`, character by character. */
  function Upper(s: string): (r: string)
    ensures |r| == |s|
    ensures forall i :: 0 <= i < |r| ==> r[i] == UpperChar(s[i])
  {
    seq(|s|, i requires 0 <= i < |s| => UpperChar(s[i]))
  }

  /** A letter and its upper-case form lower-case alike. */
  lemma LowerUpperChar(c: char)
    ensures LowerChar(UpperChar(c)) == LowerChar(c)
  {
    if IsLower(c) {
      assert !IsUpper(c);
      assert IsLower(LowerChar(UpperChar(c))) && UpperChar(LowerChar(UpperChar(c))) == UpperChar(c);
    }
  }

  /** `s.upper().lower() == s.lower()`. */
  lemma LowerUpper(s: string)
    ensures Lower(Upper(s)) == Lower(s)
  {
    forall i | 0 <= i < |s|
      ensures Lower(Upper(s))[i] == Lower(s)[i]
    {
      LowerUpperChar(s[i]);
    }
  }

  /** Lower-casing twice is lower-casing once. */
  lemma LowerIdempotent(s: string)
    ensures Lower(Lower(s)) == Lower(s)
  {
  }

  // ---------------------------------------------------------------------
  // The substring test `needle in hay`
  // ---------------------------------------------------------------------

  /** `needle in hay` for Python strings: needle occurs at some offset of hay. */
  predicate Contains(hay: string, needle: string) {
    needle <= hay || (hay != [] && Contains(hay[1..], needle))
  }

  /** needle is the slice of hay that starts at offset k. */
  predicate OccursAt(hay: string, needle: string, k: int) {
    0 <= k <= |hay| - |needle| && hay[k..k + |needle|] == needle
  }

  /** Offset 0 is the prefix test. */
  lemma OccursAtStart(hay: string, needle: string)
    ensures OccursAt(hay, needle, 0) <==> needle <= hay
  {
    if |needle| <= |hay| {
      assert hay[0..|needle|] == hay[..|needle|];
    }
  }

  /** An occurrence at offset k >= 1 is an occurrence at k - 1 in the tail. */
  lemma OccursAtShift(hay: string, needle: string, k: int)
    requires hay != [] && k >= 1
    ensures OccursAt(hay, needle, k) <==> OccursAt(hay[1..], needle, k - 1)
  {
    if 1 <= k <= |hay| - |needle| {
      assert hay[1..][k - 1..k - 1 + |needle|] == hay[k..k + |needle|];
    }
  }

  /** `needle in hay` holds exactly when needle is the slice of hay at some offset. */
  lemma {:induction false} ContainsAt(hay: string, needle: string)
    ensures Contains(hay, needle) <==> exists k :: OccursAt(hay, needle, k)
  {
    OccursAtStart(hay, needle);
    if needle <= hay {
      assert OccursAt(hay, needle, 0);
    } else if hay == [] {
    } else {
      ContainsAt(hay[1..], needle);
      if Contains(hay[1..], needle) {
        var k :| OccursAt(hay[1..], needle, k);
        OccursAtShift(hay, needle, k + 1);
      } else {
        forall k | OccursAt(hay, needle, k)
          ensures false
        {
          if k >= 1 {
            OccursAtShift(hay, needle, k);
          }
        }
      }
    }
  }

  // ---------------------------------------------------------------------
  // Decimal digits
  // ---------------------------------------------------------------------

  predicate IsDigit(c: char) {
    '0' <= c <= '9'
  }

  predicate AllDigits(s: string) {
    forall i :: 0 <= i < |s| ==> IsDigit(s[i])
  }

  function DigitValue(c: char): (v: nat)
    requires IsDigit(c)
    ensures v < 10
  {
    c as int - '0' as int
  }

  function DigitChar(v: nat): (c: char)
    requires v < 10
    ensures IsDigit(c) && DigitValue(c) == v
  {
    ('0' as int + v) as char
  }

  /** The number that a string of decimal digits denotes, most significant digit first. */
  function DigitsValue(s: string): nat
    requires AllDigits(s)
  {
    if s == [] then 0 else DigitsValue(s[..|s| - 1]) * 10 + DigitValue(s[|s| - 1])
  }

  /** The value of one, two and four digits, spelled out. */
  lemma DigitsValueShort(t: string)
    requires AllDigits(t) && (|t| == 1 || |t| == 2 || |t| == 4)
    ensures |t| == 1 ==> DigitsValue(t) == DigitValue(t[0])
    ensures |t| == 2 ==> DigitsValue(t) == DigitValue(t[0]) * 10 + DigitValue(t[1])
    ensures |t| == 4 ==> DigitsValue(t) == DigitValue(t[0]) * 1000 + DigitValue(t[1]) * 100
                                          + DigitValue(t[2]) * 10 + DigitValue(t[3])
  {
    if |t| == 4 {
      assert t[..3][..2] == t[..2] && t[..2][..1] == t[..1] && t[..1][..0] == [];
    } else if |t| == 2 {
      assert t[..1][..0] == [];
    } else {
      assert t[..0] == [];
    }
  }

  function Pow10(w: nat): (p: nat)
    ensures p >= 1
  {
    if w == 0 then 1 else 10 * Pow10(w - 1)
  }

  /** `n` written with exactly `w` decimal digits, zero-padded on the left (strftime's `%02d`). */
  function Pad(n: nat, w: nat): (r: string)
    requires n < Pow10(w)
    ensures |r| == w && AllDigits(r)
    ensures DigitsValue(r) == n
  {
    if w == 0 then []
    else
      var r := Pad(n / 10, w - 1) + [DigitChar(n % 10)];
      assert r[..|r| - 1] == Pad(n / 10, w - 1);
      r
  }

  /** A digit string of length `w` is below 10^w. */
  lemma {:induction false} DigitsValueBound(s: string)
    requires AllDigits(s)
    ensures DigitsValue(s) < Pow10(|s|)
  {
    if s != [] {
      DigitsValueBound(s[..|s| - 1]);
    }
  }

  /** Padding the value of a digit string to its own length gives the string back. */
  lemma {:induction false} PadDigitsValue(s: string)
    requires AllDigits(s)
    ensures DigitsValue(s) < Pow10(|s|)
    ensures Pad(DigitsValue(s), |s|) == s
  {
    DigitsValueBound(s);
    if s != [] {
      var init := s[..|s| - 1];
      PadDigitsValue(init);
      var n := DigitsValue(s);
      assert n / 10 == DigitsValue(init) && n % 10 == DigitValue(s[|s| - 1]);
      assert s == init + [s[|s| - 1]];
    }
  }

  /** `str(n)` for a natural number: its shortest decimal digits. */
  function NatDigits(n: nat): (r: string)
    ensures r != [] && AllDigits(r)
    ensures DigitsValue(r) == n
    ensures |r| == 1 || r[0] != '0'
  {
    var r := if n < 10 then [DigitChar(n)] else NatDigits(n / 10) + [DigitChar(n % 10)];
    assert r[..|r| - 1] == if n < 10 then [] else NatDigits(n / 10);
    r
  }

  /** `str(n)` for any integer. */
  function Show(n: int): string {
    if n < 0 then "-" + NatDigits(-n) else NatDigits(n)
  }

  // ---------------------------------------------------------------------
  // int(text)
  // ---------------------------------------------------------------------

  /**
   * The digit part accepted by `int(text)` in base 10: digits, with single
   * underscores allowed between two digits.
   */
  predicate IsDigitGroup(s: string) {
    && s != []
    && IsDigit(s[0]) && IsDigit(s[|s| - 1])
    && DigitsOrUnderscores(s)
    && (forall i :: 0 <= i < |s| - 1 ==> s[i] == '_' ==> s[i + 1] != '_')
  }

  /** Every character of `s` is a digit or an underscore. */
  predicate DigitsOrUnderscores(s: string) {
    forall i :: 0 <= i < |s| ==> IsDigit(s[i]) || s[i] == '_'
  }

  /** The digits of `s` with the underscores taken out. */
  function RemoveUnderscores(s: string): (r: string)
    requires DigitsOrUnderscores(s)
    ensures AllDigits(r) && |r| <= |s|
    ensures AllDigits(s) ==> r == s
  {
    if s == [] then []
    else (if s[0] == '_' then [] else [s[0]]) + RemoveUnderscores(s[1..])
  }

  /**
   * The information separators U+001C..U+001F. `isspace()` holds for them,
   * so `strip()` drops them, but `int()` skips only ASCII `\t\n\v\f\r`,
   * the space and non-ASCII whitespace: next to a number they are never
   * skipped, and they are not digits either.
   */
  predicate IsSeparator(c: char) {
    '\U{1C}' <= c <= '\U{1F}'
  }

  predicate HasSeparator(s: string) {
    exists i :: 0 <= i < |s| && IsSeparator(s[i])
  }

  /** `sys.get_int_max_str_digits()` by default: `int()` refuses text with more digits. */
  const IntMaxStrDigits: nat := 4300

  /** What follows an optional leading sign. */
  function Unsigned(t: string): (u: string)
    ensures |u| <= |t| && u == t[|t| - |u|..]
    ensures t != [] && (t[0] == '-' || t[0] == '+') ==> |u| == |t| - 1
    ensures t == [] || (t[0] != '-' && t[0] != '+') ==> u == t
  {
    if t != [] && (t[0] == '-' || t[0] == '+') then t[1..] else t
  }

  /**
   * `int(text)` once surrounding whitespace is gone: an optional sign, then a
   * digit group of at most `IntMaxStrDigits` digits.
   */
  function ParseSigned(t: string): (r: Option<int>)
    ensures r.Some? <==> IsDigitGroup(Unsigned(t)) && |RemoveUnderscores(Unsigned(t))| <= IntMaxStrDigits
    ensures r.Some? && t[0] != '-' ==> r.value == DigitsValue(RemoveUnderscores(Unsigned(t)))
    ensures r.Some? && t[0] == '-' ==> r.value == -(DigitsValue(RemoveUnderscores(Unsigned(t))) as int)
  {
    var body := Unsigned(t);
    if !IsDigitGroup(body) then None
    else
      var digits := RemoveUnderscores(body);
      if |digits| > IntMaxStrDigits then None
      else
        var magnitude: int := DigitsValue(digits);
        Some(if t[0] == '-' then -magnitude else magnitude)
  }

  /**
   * `int(text)`: surrounding whitespace is ignored, an optional sign is
   * allowed, and the rest must be a digit group; anything else is a
   * `ValueError`, here `None`. A separator anywhere makes it fail: at
   * either end it is not skipped, and inside it is not part of a number.
   */
  function ParseInt(text: string): (r: Option<int>)
    ensures r.Some? <==>
      && !HasSeparator(text)
      && IsDigitGroup(Unsigned(Strip(text)))
      && |RemoveUnderscores(Unsigned(Strip(text)))| <= IntMaxStrDigits
    ensures AllSpace(text) ==> r == None
  {
    if HasSeparator(text) then None else ParseSigned(Strip(text))
  }

  /** Plain digits read as their decimal value. */
  lemma ParseDigits(s: string)
    requires s != [] && AllDigits(s) && |s| <= IntMaxStrDigits
    ensures ParseInt(s) == Some(DigitsValue(s))
  {
    assert IsDigitGroup(s);
    assert RemoveUnderscores(s) == s;
    ParseIntUnpadded(s);
  }

  /** `int(str(n)) == n` for every integer. */
  lemma ParseShow(n: int)
    requires |NatDigits(if n < 0 then -n else n)| <= IntMaxStrDigits
    ensures ParseInt(Show(n)) == Some(n)
  {
    if n >= 0 {
      ParseShowNatural(n);
    } else {
      ParseShowNegative(n);
    }
  }

  /** `int(str(n)) == n` for n >= 0. */
  lemma ParseShowNatural(n: nat)
    requires |NatDigits(n)| <= IntMaxStrDigits
    ensures ParseInt(Show(n)) == Some(n)
  {
    var ds := NatDigits(n);
    assert Show(n) == ds;
    ParseDigits(ds);
  }

  /** `int(str(n)) == n` for n < 0, where `str` writes a minus sign. */
  lemma ParseShowNegative(n: int)
    requires n < 0 && |NatDigits(-n)| <= IntMaxStrDigits
    ensures ParseInt(Show(n)) == Some(n)
  {
    var ds := NatDigits(-n);
    var s := Show(n);
    assert s == "-" + ds;
    assert s[1..] == ds;
    ParseNegative(s);
  }

  /** A minus sign followed by plain digits reads as the negated digit value. */
  lemma ParseNegative(s: string)
    requires |s| >= 2 && s[0] == '-' && AllDigits(s[1..]) && |s| - 1 <= IntMaxStrDigits
    ensures ParseInt(s) == Some(-(DigitsValue(s[1..]) as int))
  {
    var ds := s[1..];
    assert s[|s| - 1] == ds[|ds| - 1];
    StripUnpadded(s);
    assert !HasSeparator(s) by {
      forall i | 0 <= i < |s|
        ensures !IsSeparator(s[i])
      {
        if i > 0 { assert s[i] == ds[i - 1]; }
      }
    }
    assert ParseInt(s) == ParseSigned(s);
    assert IsDigitGroup(ds);
    assert RemoveUnderscores(ds) == ds;
  }

  /** On text with no surrounding whitespace that starts and ends with a digit, int() reads the digit group. */
  lemma ParseIntUnpadded(s: string)
    requires s != [] && IsDigit(s[0]) && IsDigit(s[|s| - 1])
    ensures IsDigitGroup(s) && |RemoveUnderscores(s)| <= IntMaxStrDigits ==>
      ParseInt(s) == Some(DigitsValue(RemoveUnderscores(s)))
    ensures !IsDigitGroup(s) ==> ParseInt(s) == None
  {
    StripUnpadded(s);
    assert Unsigned(s) == s;
    if IsDigitGroup(s) {
      NoSeparatorInGroup(s);
      assert ParseInt(s) == ParseSigned(s);
    }
  }

  /** Digits and underscores contain no separator. */
  lemma NoSeparatorInGroup(s: string)
    requires DigitsOrUnderscores(s)
    ensures !HasSeparator(s)
  {
    forall i | 0 <= i < |s|
      ensures !IsSeparator(s[i])
    {
      assert IsDigit(s[i]) || s[i] == '_';
    }
  }

  /** Leading whitespace is all dropped by lstrip(). */
  lemma {:induction false} TrimLeftSpaces(a: string, x: string)
    requires AllSpace(a)
    ensures TrimLeft(a + x) == TrimLeft(x)
  {
    if a == [] {
      assert a + x == x;
    } else {
      var ax := a + x;
      assert ax[0] == a[0] && ax[1..] == a[1..] + x;
      assert AllSpace(a[1..]) by {
        forall i | 0 <= i < |a| - 1
          ensures IsSpace(a[1..][i])
        {
          assert a[1..][i] == a[i + 1];
        }
      }
      TrimLeftSpaces(a[1..], x);
    }
  }

  /** Trailing whitespace is all dropped by rstrip(). */
  lemma {:induction false} TrimRightSpaces(x: string, b: string)
    requires AllSpace(b)
    ensures TrimRight(x + b) == TrimRight(x)
  {
    if b == [] {
      assert x + b == x;
    } else {
      var xb := x + b;
      var front := b[..|b| - 1];
      assert xb[|xb| - 1] == b[|b| - 1] && xb[..|xb| - 1] == x + front;
      assert AllSpace(front) by {
        forall i | 0 <= i < |front|
          ensures IsSpace(front[i])
        {
          assert front[i] == b[i];
        }
      }
      TrimRightSpaces(x, front);
    }
  }

  /** lstrip() of text with a non-space character stops inside it. */
  lemma {:induction false} TrimLeftAppend(x: string, b: string)
    requires !AllSpace(x)
    ensures TrimLeft(x + b) == TrimLeft(x) + b
  {
    var xb := x + b;
    assert xb[0] == x[0];
    if IsSpace(x[0]) {
      assert xb[1..] == x[1..] + b;
      assert !AllSpace(x[1..]) by {
        var i :| 0 <= i < |x| && !IsSpace(x[i]);
        assert x[1..][i - 1] == x[i];
      }
      TrimLeftAppend(x[1..], b);
    }
  }

  /** strip() ignores whitespace added on either side. */
  lemma StripPadded(a: string, t: string, b: string)
    requires AllSpace(a) && AllSpace(b)
    ensures Strip(a + t + b) == Strip(t)
  {
    assert a + t + b == a + (t + b);
    TrimLeftSpaces(a, t + b);
    if AllSpace(t) {
      assert AllSpace(t + b) by {
        forall i | 0 <= i < |t + b|
          ensures IsSpace((t + b)[i])
        {
          if i < |t| { assert (t + b)[i] == t[i]; } else { assert (t + b)[i] == b[i - |t|]; }
        }
      }
      assert TrimLeft(t + b) == [] && TrimLeft(t) == [];
    } else {
      TrimLeftAppend(t, b);
      TrimRightSpaces(TrimLeft(t), b);
    }
  }

  /** int() ignores surrounding whitespace: " 42 " reads like "42". */
  lemma ParseIntIgnoresPadding(a: string, t: string, b: string)
    requires AllSpace(a) && AllSpace(b) && !HasSeparator(a) && !HasSeparator(b)
    ensures ParseInt(a + t + b) == ParseInt(t)
  {
    var s := a + t + b;
    StripPadded(a, t, b);
    if HasSeparator(t) {
      var i :| 0 <= i < |t| && IsSeparator(t[i]);
      assert s[|a| + i] == t[i];
    }
    if HasSeparator(s) {
      var i :| 0 <= i < |s| && IsSeparator(s[i]);
      if |a| <= i < |a| + |t| {
        assert s[i] == t[i - |a|];
      }
    }
  }

  /** Text without a single digit is refused. */
  lemma ParseIntNeedsDigit(text: string)
    requires forall i :: 0 <= i < |text| ==> !IsDigit(text[i])
    ensures ParseInt(text) == None
  {
    var t := Strip(text);
    var k :| OccursAt(text, t, k);
    var u := Unsigned(t);
    if u != [] {
      var j := |t| - |u|;
      assert u[0] == t[j] == text[k + j];
    }
    assert !IsDigitGroup(u);
  }

  lemma {:induction false} RemoveUnderscoresAppend(a: string, b: string)
    requires DigitsOrUnderscores(a) && DigitsOrUnderscores(b)
    ensures DigitsOrUnderscores(a + b)
    ensures RemoveUnderscores(a + b) == RemoveUnderscores(a) + RemoveUnderscores(b)
  {
    var ab := a + b;
    DigitsOrUnderscoresAppend(a, b);
    if a == [] {
      assert ab == b;
    } else {
      var head := if a[0] == '_' then [] else [a[0]];
      assert ab[0] == a[0] && ab[1..] == a[1..] + b;
      DigitsOrUnderscoresTail(a);
      RemoveUnderscoresAppend(a[1..], b);
      assert RemoveUnderscores(a) == head + RemoveUnderscores(a[1..]);
      calc {
        RemoveUnderscores(ab);
        head + RemoveUnderscores(ab[1..]);
        head + RemoveUnderscores(a[1..] + b);
        head + (RemoveUnderscores(a[1..]) + RemoveUnderscores(b));
        { AppendAssociative(head, RemoveUnderscores(a[1..]), RemoveUnderscores(b)); }
        (head + RemoveUnderscores(a[1..])) + RemoveUnderscores(b);
        RemoveUnderscores(a) + RemoveUnderscores(b);
      }
    }
  }

  lemma AppendAssociative(x: string, y: string, z: string)
    ensures x + (y + z) == (x + y) + z
  {
  }

  lemma DigitsOrUnderscoresAppend(a: string, b: string)
    requires DigitsOrUnderscores(a) && DigitsOrUnderscores(b)
    ensures DigitsOrUnderscores(a + b)
  {
    forall i | 0 <= i < |a + b|
      ensures IsDigit((a + b)[i]) || (a + b)[i] == '_'
    {
      if i < |a| { assert (a + b)[i] == a[i]; } else { assert (a + b)[i] == b[i - |a|]; }
    }
  }

  lemma DigitsOrUnderscoresTail(a: string)
    requires a != [] && DigitsOrUnderscores(a)
    ensures DigitsOrUnderscores(a[1..])
  {
    forall i | 0 <= i < |a| - 1
      ensures IsDigit(a[1..][i]) || a[1..][i] == '_'
    {
      assert a[1..][i] == a[i + 1];
    }
  }

  /** An underscore in front of digits is dropped. */
  lemma SkipUnderscore(ub: string, b: string)
    requires AllDigits(b) && |ub| == |b| + 1 && ub[0] == '_' && ub[1..] == b
    ensures DigitsOrUnderscores(ub) && RemoveUnderscores(ub) == b
  {
    forall i | 0 <= i < |ub|
      ensures IsDigit(ub[i]) || ub[i] == '_'
    {
      if i > 0 { assert ub[i] == b[i - 1]; }
    }
    assert RemoveUnderscores(ub) == RemoveUnderscores(b);
  }

  /** Two digit strings joined by one underscore form a digit group. */
  lemma JoinedGroup(a: string, b: string)
    requires a != [] && b != [] && AllDigits(a) && AllDigits(b)
    ensures IsDigitGroup(a + "_" + b)
  {
    var s := a + "_" + b;
    assert s[0] == a[0] && s[|s| - 1] == b[|b| - 1];
    forall i | 0 <= i < |s|
      ensures IsDigit(s[i]) || s[i] == '_'
      ensures s[i] == '_' ==> i == |a|
    {
      if i < |a| {
        assert s[i] == a[i];
      } else if i > |a| {
        assert s[i] == b[i - |a| - 1];
      }
    }
  }

  /** Taking the underscore out of such a group leaves the two digit strings joined. */
  lemma JoinedDigits(a: string, b: string)
    requires AllDigits(a) && AllDigits(b)
    ensures RemoveUnderscores(a + "_" + b) == a + b
  {
    var ub := "_" + b;
    assert RemoveUnderscores(a + ub) == a + b by {
      SkipUnderscore(ub, b);
      assert DigitsOrUnderscores(a);
      RemoveUnderscoresAppend(a, ub);
    }
    assert a + "_" + b == a + ub;
  }

  /** A single underscore between digits is skipped: "1_000" reads as 1000. */
  lemma ParseIntSkipsUnderscore(a: string, b: string)
    requires a != [] && b != [] && AllDigits(a) && AllDigits(b) && |a| + |b| <= IntMaxStrDigits
    ensures ParseInt(a + "_" + b) == ParseInt(a + b) == Some(DigitsValue(a + b))
  {
    var s := a + "_" + b;
    DigitsAppend(a, b);
    ParseDigits(a + b);
    JoinedGroup(a, b);
    JoinedDigits(a, b);
    assert s[0] == a[0] && s[|s| - 1] == b[|b| - 1];
    ParseIntUnpadded(s);
  }

  /** Digits followed by digits are digits. */
  lemma DigitsAppend(a: string, b: string)
    requires AllDigits(a) && AllDigits(b)
    ensures AllDigits(a + b)
  {
    forall i | 0 <= i < |a + b|
      ensures IsDigit((a + b)[i])
    {
      if i < |a| { assert (a + b)[i] == a[i]; } else { assert (a + b)[i] == b[i - |a|]; }
    }
  }

  /** Two underscores in a row are refused: "1__000" is not a number. */
  lemma ParseIntRefusesDoubleUnderscore(a: string, b: string)
    requires a != [] && b != [] && AllDigits(a) && AllDigits(b)
    ensures ParseInt(a + "__" + b) == None
  {
    var s := a + "__" + b;
    assert s[0] == a[0] && s[|s| - 1] == b[|b| - 1];
    assert !IsDigitGroup(s) by {
      assert s[|a|] == '_' && s[|a| + 1] == '_';
    }
    ParseIntUnpadded(s);
  }
}
